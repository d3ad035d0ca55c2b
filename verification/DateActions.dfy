/**
 What a date expression means: the record of variables, the semantic action of every rule, and the effect
 of a derivation tree as the actions of its rules from left to right and bottom up.
 */
module DateActions {
  import opened Options
  import opened DateTables
  import opened DateGrammar

  datatype DstMode = DstOn | DstOff | DstMaybe

  // struct Variables; the two day fields are None while they have never been written
  datatype Vars = Vars(
    dstMode: DstMode, dayOrdinal: Option<int>, dayNumber: Option<int>,
    haveDate: int, haveDay: int, haveRel: int, haveTime: int, haveZone: int,
    timezone: int, day: int, hour: int, minutes: int, month: int, seconds: int, year: int,
    meridian: MeridianMode, relMonth: int, relSeconds: int)

  // C division truncates toward zero.
  function Quot(a: int, b: int): int
    requires b > 0
  {
    if a >= 0 then a / b else -(-a / b)
  }

  function Rem(a: int, b: int): int
    requires b > 0
  {
    a - b * Quot(a, b)
  }

  function Num(v: Value): int {
    match v case Number(n) => n case Meridian(_) => 0
  }

  function Mer(v: Value): MeridianMode {
    match v case Number(_) => Mer24 case Meridian(m) => m
  }

  // Minutes west of Greenwich of a signed four-digit zone
  function ZoneMinutes(n: int): int {
    -(Rem(n, 100) + Quot(n, 100) * 60)
  }

  // Which of three numbers is day, month and year; order is the locale's preference.
  function PossibleDate(v: Vars, day: int, month: int, year: int, order: int): Vars {
    var dateOrder := if day > 31 then 2 else if day > 12 then 1 else if month > 12 then 0 else order;
    if dateOrder == 0 then v.(day := month, month := day, year := year)
    else if dateOrder == 1 then v.(day := day, month := month, year := year)
    else v.(day := year, month := month, year := day)
  }

  function SetTime(v: Vars, h: int, m: int, s: int, mer: MeridianMode): Vars {
    v.(hour := h, minutes := m, seconds := s, meridian := mer)
  }

  function SetZone(v: Vars, minutes: int, mode: DstMode): Vars {
    v.(timezone := minutes, dstMode := mode)
  }

  function SetDigitDate(v: Vars, n: int): Vars {
    v.(day := Rem(n, 100), month := Rem(Quot(n, 100), 100), year := Quot(n, 10000))
  }

  function SetDigitTime(v: Vars, n: int): Vars {
    SetTime(v, Quot(n, 10000), Rem(Quot(n, 100), 100), Rem(n, 100), Mer24)
  }

  // The action of rule r, given the values of its right-hand side.
  function Act(r: int, x: seq<Value>, v: Vars, order: int): Vars
    requires 2 <= r < 52 && |x| == |Rhs(r)|
  {
    match r
    case 4 => v.(haveTime := v.haveTime + 1)
    case 5 => v.(haveZone := v.haveZone + 1)
    case 6 => v.(haveDate := v.haveDate + 1)
    case 7 => v.(haveDay := v.haveDay + 1)
    case 8 => v.(haveRel := v.haveRel + 1)
    case 10 => SetTime(v, Num(x[0]), 0, 0, Mer(x[1]))
    case 11 =>
      SetZone(SetTime(v, Quot(Num(x[0]), 100), Rem(Num(x[0]), 100), 0, Mer24), ZoneMinutes(Num(x[1])), DstOff)
    case 12 => SetZone(SetDigitTime(v, Num(x[0])), ZoneMinutes(Num(x[1])), DstOff)
    case 13 => SetTime(v, Num(x[0]), Num(x[2]), 0, Mer(x[3]))
    case 14 => SetZone(SetTime(v, Num(x[0]), Num(x[2]), v.seconds, Mer24), ZoneMinutes(Num(x[3])), DstOff)
    case 15 => SetTime(v, Num(x[0]), Num(x[2]), Num(x[4]), Mer(x[5]))
    case 16 => SetZone(SetTime(v, Num(x[0]), Num(x[2]), Num(x[4]), Mer24), ZoneMinutes(Num(x[5])), DstOff)
    case 17 => SetZone(v, Num(x[0]), DstOff)
    case 18 => SetZone(v, Num(x[0]), DstOn)
    case 19 => SetZone(v, Num(x[0]), DstOn)
    case 20 => if v.haveTime > 0 then SetZone(v, Num(x[0]), DstOff) else v.(haveZone := v.haveZone - 1)
    case 21 => v.(dayOrdinal := Some(1), dayNumber := Some(Num(x[0])))
    case 22 => v.(dayOrdinal := Some(1), dayNumber := Some(Num(x[0])))
    case 23 => v.(dayOrdinal := Some(Num(x[0])), dayNumber := Some(Num(x[1])))
    case 24 => PossibleDate(v, Num(x[0]), Num(x[2]), v.year, order)
    case 25 => PossibleDate(v, Num(x[0]), Num(x[2]), Num(x[4]), order)
    case 26 => PossibleDate(v, Num(x[0]), -Num(x[1]), -Num(x[2]), order)
    case 27 => SetDigitDate(v, Num(x[0]))
    case 28 => PossibleDate(v, Num(x[0]), Num(x[1]), -Num(x[2]), order)
    case 29 => if Num(x[1]) > 31 then v.(month := Num(x[0]), year := Num(x[1]))
               else v.(month := Num(x[0]), day := Num(x[1]))
    case 30 => v.(month := Num(x[0]), day := Num(x[1]), year := Num(x[3]))
    case 31 => if Num(x[0]) > 31 then v.(year := Num(x[0]), month := Num(x[1]))
               else v.(day := Num(x[0]), month := Num(x[1]))
    case 32 => PossibleDate(v, Num(x[0]), Num(x[1]), Num(x[2]), order)
    case 33 => v.(relSeconds := -v.relSeconds, relMonth := -v.relMonth)
    case 35 => v.(relSeconds := v.relSeconds + Num(x[0]) * Num(x[1]) * 60)
    case 36 => v.(relSeconds := v.relSeconds + Num(x[0]) * Num(x[1]) * 60)
    case 37 => v.(relSeconds := v.relSeconds + Num(x[0]) * 60)
    case 38 => v.(relSeconds := v.relSeconds + Num(x[0]))
    case 39 => v.(relSeconds := v.relSeconds + Num(x[0]))
    case 40 => v.(relSeconds := v.relSeconds + 1)
    case 41 => v.(relMonth := v.relMonth + Num(x[0]) * Num(x[1]))
    case 42 => v.(relMonth := v.relMonth + Num(x[0]) * Num(x[1]))
    case 43 => v.(relMonth := v.relMonth + Num(x[0]))
    case 47 => ActLoneNumber(Num(x[0]), v)
    case 48 => ActLoneTime(Num(x[0]), v)
    case 49 => ActSixDigits(Num(x[0]), v)
    case _ => v
  }

  // After a time and a date, with nothing relative, a lone number is a year.
  predicate YearFollows(v: Vars) {
    v.haveTime != 0 && v.haveDate != 0 && v.haveRel == 0
  }

  function ActLoneNumber(n: int, v: Vars): Vars {
    if YearFollows(v) then v.(year := n)
    else if n > 240000 then SetDigitDate(v, n).(haveDate := v.haveDate + 1)
    else if n < 10000 then SetTime(v, Quot(n, 100), Rem(n, 100), 0, Mer24).(haveTime := v.haveTime + 1)
    else SetDigitTime(v, n).(haveTime := v.haveTime + 1)
  }

  function ActLoneTime(n: int, v: Vars): Vars {
    if YearFollows(v) then v.(year := n)
    else SetTime(v, Quot(n, 100), Rem(n, 100), 0, Mer24).(haveTime := v.haveTime + 1)
  }

  function ActSixDigits(n: int, v: Vars): Vars {
    if v.haveDate == 0 && n > 240000 then SetDigitDate(v, n).(haveDate := 1)
    else if v.haveTime == 0 then SetDigitTime(v, n).(haveTime := 1)
    else v
  }

  // The value a rule leaves on the value stack: that of its first symbol, or 24-hour mode for an empty o_merid.
  function Val(t: Tree): Value {
    match t
    case Leaf(tok) => tok.val
    case Node(_, kids) => if kids == [] then Meridian(Mer24) else Val(kids[0])
  }

  function Vals(ts: seq<Tree>): (x: seq<Value>)
    ensures |x| == |ts|
  {
    seq(|ts|, i requires 0 <= i < |ts| => Val(ts[i]))
  }

  // The effect of a derivation tree, and of a list of trees from left to right
  function Effect(t: Tree, v: Vars, order: int): Vars
    decreases t, 0
  {
    match t
    case Leaf(_) => v
    case Node(r, kids) =>
      var w := EffectAll(kids, v, order);
      if 2 <= r < 52 && |kids| == |Rhs(r)| then Act(r, Vals(kids), w, order) else w
  }

  function EffectAll(ts: seq<Tree>, v: Vars, order: int): Vars
    decreases ts, 0
  {
    if ts == [] then v else Effect(ts[|ts| - 1], EffectAll(ts[..|ts| - 1], v, order), order)
  }

  lemma EffectAllSnoc(ts: seq<Tree>, t: Tree, v: Vars, order: int)
    ensures EffectAll(ts + [t], v, order) == Effect(t, EffectAll(ts, v, order), order)
  {
    assert (ts + [t])[..|ts|] == ts;
  }

  lemma {:induction false} EffectAllConcat(xs: seq<Tree>, ys: seq<Tree>, v: Vars, order: int)
    ensures EffectAll(xs + ys, v, order) == EffectAll(ys, EffectAll(xs, v, order), order)
    decreases |ys|
  {
    if ys == [] {
      assert xs + ys == xs;
    } else {
      var init, last := ys[..|ys| - 1], ys[|ys| - 1];
      EffectAllConcat(xs, init, v, order);
      assert xs + ys == (xs + init) + [last];
      EffectAllSnoc(xs + init, last, v, order);
    }
  }

  lemma PassThrough(r: int, x: seq<Value>, v: Vars, order: int)
    requires r == 2 || r == 3 || 44 <= r <= 46 || 50 <= r <= 51
    requires |x| == |Rhs(r)|
    ensures Act(r, x, v, order) == v
  {
  }

  lemma EffectOfPair(r: int, a: Tree, b: Tree, v: Vars, order: int)
    requires 2 <= r < 52 && |Rhs(r)| == 2
    ensures Effect(Node(r, [a, b]), v, order)
         == Act(r, [Val(a), Val(b)], Effect(b, Effect(a, v, order), order), order)
  {
    assert Vals([a, b]) == [Val(a), Val(b)];
    assert [a, b] == [a] + [b];
    EffectAllSnoc([a], b, v, order);
    EffectAllOne(a, v, order);
  }

  lemma EffectAllOne(t: Tree, v: Vars, order: int)
    ensures EffectAll([t], v, order) == Effect(t, v, order)
  {
    assert [t] == [] + [t];
    EffectAllSnoc([], t, v, order);
  }

  // A spec has the effect of its items, one after the other.
  lemma {:induction false} SpecEffectIsFold(spec: Tree, v: Vars, order: int)
    requires WellFormed(spec) && Root(spec) == SPEC
    ensures Effect(spec, v, order) == EffectAll(Items(spec), v, order)
  {
    assert spec.rule == 2 || spec.rule == 3;
    var kids := spec.kids;
    PassThrough(spec.rule, Vals(kids), EffectAll(kids, v, order), order);
    if spec.rule == 3 {
      var a, b := kids[0], kids[1];
      assert WellFormed(a) && Root(a) == SPEC;
      assert kids == [a, b];
      SpecEffectIsFold(a, v, order);
      EffectOfPair(3, a, b, v, order);
      PassThrough(3, [Val(a), Val(b)], Effect(b, Effect(a, v, order), order), order);
      EffectAllSnoc(Items(a), b, v, order);
      assert Items(spec) == Items(a) + [b];
    }
  }

  // Symbols that are read before an item is complete: terminals, numbers and am/pm marks
  predicate Silent(sym: int) {
    0 <= sym < YYNTOKENS || sym == UNUMBER_NT || sym == O_MERID
  }

  // They have no effect, and only o_merid can be empty.
  lemma SilentHasNoEffect(t: Tree, v: Vars, order: int)
    requires WellFormed(t) && Silent(Root(t))
    ensures Effect(t, v, order) == v
    ensures Root(t) != O_MERID ==> |Yield(t)| == 1
  {
    if t.Node? {
      assert 44 <= t.rule <= 46 || 50 <= t.rule <= 51;
      PassThrough(t.rule, Vals(t.kids), EffectAll(t.kids, v, order), order);
      if t.kids != [] {
        var k := t.kids[0];
        assert WellFormed(k) && Root(k) == Rhs(t.rule)[0];
        assert k.Leaf?;
        assert t.kids == [k];
        YieldOne(k);
        EffectAllOne(k, v, order);
      }
    }
  }

  lemma {:induction false} SilentAllHaveNoEffect(ts: seq<Tree>, v: Vars, order: int)
    requires forall i :: 0 <= i < |ts| ==> WellFormed(ts[i]) && Silent(Root(ts[i]))
    ensures EffectAll(ts, v, order) == v
    decreases |ts|
  {
    if ts != [] {
      SilentAllHaveNoEffect(ts[..|ts| - 1], v, order);
      SilentHasNoEffect(ts[|ts| - 1], v, order);
    }
  }

  // Rules that build on silent symbols only: times, zones, days, dates, relative units and lone numbers
  predicate Simple(r: int) {
    10 <= r <= 32 || 35 <= r <= 43 || 47 <= r <= 49
  }

  lemma EffectOfSimple(t: Tree, v: Vars, order: int)
    requires WellFormed(t) && t.Node? && Simple(t.rule)
    ensures Effect(t, v, order) == Act(t.rule, Vals(t.kids), v, order)
  {
    forall i | 0 <= i < |t.kids|
      ensures WellFormed(t.kids[i]) && Silent(Root(t.kids[i]))
    {
      assert Root(t.kids[i]) == Rhs(t.rule)[i];
      SimpleIsOnSilent(t.rule, i);
    }
    SilentAllHaveNoEffect(t.kids, v, order);
  }

  lemma SimpleIsOnSilent(r: int, i: nat)
    requires Simple(r) && i < |Rhs(r)|
    ensures Silent(Rhs(r)[i])
  {
  }

  // How PTimeParse prepares the record
  predicate Initial(v: Vars) {
    && v.haveDate == v.haveDay == v.haveRel == v.haveTime == v.haveZone == 0
    && v.hour == v.minutes == v.seconds == 0 && v.meridian == Mer24
    && v.relMonth == v.relSeconds == 0
  }

  // What holds between items: a part that no item has supplied still has its default d,
  // and the day of the week has been written if one was seen.
  predicate Boundary(d: Vars, v: Vars) {
    && v.haveDate >= 0 && v.haveDay >= 0 && v.haveRel >= 0 && v.haveTime >= 0 && v.haveZone >= 0
    && (v.haveDate == 0 ==> v.year == d.year && v.month == d.month && v.day == d.day)
    && (v.haveTime == 0 ==> v.hour == v.minutes == v.seconds == 0 && v.meridian == Mer24)
    && (v.haveTime == 0 && v.haveZone == 0 ==> v.timezone == d.timezone && v.dstMode == d.dstMode)
    && (v.haveDay > 0 ==> v.dayOrdinal.Some? && v.dayNumber.Some?)
    && (v.haveRel == 0 ==> v.relMonth == v.relSeconds == 0)
  }

  // The part of the record that an item of each kind may write before it is counted
  predicate Supplies(r: int, v: Vars, w: Vars) {
    match r
    case 4 => w == v.(hour := w.hour, minutes := w.minutes, seconds := w.seconds, meridian := w.meridian,
                      timezone := w.timezone, dstMode := w.dstMode)
    case 5 => (w == v.(timezone := w.timezone, dstMode := w.dstMode))
           || (v.haveTime <= 0 && w == v.(haveZone := v.haveZone - 1))
    case 6 => w == v.(year := w.year, month := w.month, day := w.day)
    case 7 => w.dayOrdinal.Some? && w.dayNumber.Some?
           && w == v.(dayOrdinal := w.dayOrdinal, dayNumber := w.dayNumber)
    case 8 => w == v.(relMonth := w.relMonth, relSeconds := w.relSeconds)
    case _ => false
  }

  lemma CountingKeepsBoundary(r: int, x: seq<Value>, d: Vars, v: Vars, w: Vars, order: int)
    requires 4 <= r <= 8 && |x| == |Rhs(r)| && Boundary(d, v) && Supplies(r, v, w)
    ensures Boundary(d, Act(r, x, w, order))
  {
  }

  lemma ItemKeepsBoundary(item: Tree, d: Vars, v: Vars, order: int)
    requires WellFormed(item) && Root(item) == ITEM && Boundary(d, v)
    ensures Boundary(d, Effect(item, v, order))
  {
    hide WellFormed, Root, Rhs, Boundary, Supplies, Act, Effect;
    ItemShape(item);
    var r, k := item.rule, item.kids[0];
    EffectOfItem(item, v, order);
    var w := Effect(k, v, order);
    if r == 9 {
      NumberSuppliesItself(k, d, v, order);
      NumberCounted(Vals(item.kids), w, order);
    } else {
      if r == 8 {
        RelSupplies(k, v, order);
      } else {
        SimpleSupplies(r, k, v, order);
      }
      CountingKeepsBoundary(r, Vals(item.kids), d, v, w, order);
    }
  }

  // An item is one time, zone, date, day, relative part or number.
  lemma ItemShape(item: Tree)
    requires WellFormed(item) && Root(item) == ITEM
    ensures item.Node? && 4 <= item.rule <= 9 && |Rhs(item.rule)| == 1 && |item.kids| == 1
    ensures WellFormed(item.kids[0]) && Root(item.kids[0]) == Rhs(item.rule)[0]
    ensures Rhs(9) == [NUMBER] && Rhs(8) == [REL]
  {
    assert Rhs(9) == [NUMBER] && Rhs(8) == [REL];
  }

  lemma EffectOfItem(item: Tree, v: Vars, order: int)
    requires item.Node? && 4 <= item.rule <= 9 && |Rhs(item.rule)| == 1 && |item.kids| == 1
    ensures Effect(item, v, order) == Act(item.rule, Vals(item.kids), Effect(item.kids[0], v, order), order)
  {
    hide Act, Rhs;
    assert item.kids == [item.kids[0]];
    EffectAllOne(item.kids[0], v, order);
  }

  // A number has been counted by its own rule.
  lemma NumberCounted(x: seq<Value>, v: Vars, order: int)
    requires |Rhs(9)| == |x|
    ensures Act(9, x, v, order) == v
  {
  }

  lemma NumberSuppliesItself(k: Tree, d: Vars, v: Vars, order: int)
    requires WellFormed(k) && Root(k) == NUMBER && Boundary(d, v)
    ensures Boundary(d, Effect(k, v, order))
  {
    SimpleByRoot(k);
    EffectOfSimple(k, v, order);
    NumberKeepsBoundary(k.rule, Vals(k.kids), d, v, order);
  }

  lemma SimpleSupplies(r: int, k: Tree, v: Vars, order: int)
    requires 4 <= r <= 7 && WellFormed(k) && Root(k) == Rhs(r)[0]
    ensures Supplies(r, v, Effect(k, v, order))
  {
    SimpleByRoot(k);
    EffectOfSimple(k, v, order);
    match r
    case 4 => TimeSupplies(k.rule, Vals(k.kids), v, order);
    case 6 => DateSupplies(k.rule, Vals(k.kids), v, order);
    case _ => ZoneOrDaySupplies(k.rule, Vals(k.kids), v, order);
  }

  lemma SimpleByRoot(k: Tree)
    requires WellFormed(k) && (TIME <= Root(k) <= DATE || Root(k) == RELUNIT || Root(k) == NUMBER)
    ensures k.Node? && Simple(k.rule)
    ensures Root(k) == TIME ==> 10 <= k.rule <= 16
    ensures Root(k) == ZONE_ITEM ==> 17 <= k.rule <= 20
    ensures Root(k) == DAY_ITEM ==> 21 <= k.rule <= 23
    ensures Root(k) == DATE ==> 24 <= k.rule <= 32
    ensures Root(k) == RELUNIT ==> 35 <= k.rule <= 43
    ensures Root(k) == NUMBER ==> 47 <= k.rule <= 49
  {
  }

  lemma TimeSupplies(r: int, x: seq<Value>, v: Vars, order: int)
    requires 10 <= r <= 16 && |x| == |Rhs(r)|
    ensures Supplies(4, v, Act(r, x, v, order))
  {
  }

  lemma ZoneOrDaySupplies(r: int, x: seq<Value>, v: Vars, order: int)
    requires 17 <= r <= 23 && |x| == |Rhs(r)|
    ensures Supplies(if r <= 20 then 5 else 7, v, Act(r, x, v, order))
  {
  }

  lemma DateSupplies(r: int, x: seq<Value>, v: Vars, order: int)
    requires 24 <= r <= 32 && |x| == |Rhs(r)|
    ensures Supplies(6, v, Act(r, x, v, order))
  {
  }

  lemma NumberKeepsBoundary(r: int, x: seq<Value>, d: Vars, v: Vars, order: int)
    requires 47 <= r <= 49 && |x| == |Rhs(r)| && Boundary(d, v)
    ensures Boundary(d, Act(r, x, v, order))
  {
    hide Quot, Rem, Rhs;
  }

  lemma RelSupplies(k: Tree, v: Vars, order: int)
    requires WellFormed(k) && Root(k) == REL
    ensures Supplies(8, v, Effect(k, v, order))
  {
    assert 33 <= k.rule <= 34;
    var u := k.kids[0];
    assert WellFormed(u) && Root(u) == Rhs(k.rule)[0] == RELUNIT;
    SimpleByRoot(u);
    EffectOfSimple(u, v, order);
    RelUnitSupplies(u.rule, Vals(u.kids), v, order);
    EffectAllOne(u, v, order);
    if k.rule == 33 {
      var a := k.kids[1];
      assert WellFormed(a) && Root(a) == Rhs(33)[1] == AGO;
      assert k.kids == [u, a];
      SilentHasNoEffect(a, Effect(u, v, order), order);
      EffectOfPair(33, u, a, v, order);
    } else {
      assert k.kids == [u];
    }
  }

  lemma RelUnitSupplies(r: int, x: seq<Value>, v: Vars, order: int)
    requires 35 <= r <= 43 && |x| == |Rhs(r)|
    ensures Supplies(8, v, Act(r, x, v, order))
  {
  }

  // Any list of items, read from a freshly prepared record, ends at the boundary invariant.
  lemma {:induction false} ItemsKeepBoundary(items: seq<Tree>, d: Vars, order: int)
    requires forall i :: 0 <= i < |items| ==> WellFormed(items[i]) && Root(items[i]) == ITEM
    requires Initial(d)
    ensures Boundary(d, EffectAll(items, d, order))
    decreases |items|
  {
    if items != [] {
      ItemsKeepBoundary(items[..|items| - 1], d, order);
      ItemKeepsBoundary(items[|items| - 1], d, EffectAll(items[..|items| - 1], d, order), order);
    }
  }
}
