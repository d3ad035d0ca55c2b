/**
 The database of a certificate authority as values: what its rows and its two indexes hold, what each operation
 makes of them, and what every operation keeps.
 */
module CaState {
  import opened Options
  import opened Revocation
  import opened Expiry

  // One row. typ is the first character of the type: V valid, E expired, R revoked.
  datatype Entry = Entry(typ: char, expires: string, revoked: string, serial: string, file: string, name: string)

  // named says of each row whether the name index holds it. All rows are in the index of serial numbers.
  datatype State = State(rows: seq<Entry>, named: seq<bool>, unique: bool)

  // A certificate as the database sees it: its serial number in hexadecimal, its name and its last day
  datatype Certificate = Certificate(serial: string, name: string, notAfter: string)

  // ----- Serial numbers -----

  // index_serial_cmp passes over leading zeros.
  function SerialKey(serial: string): string {
    if serial != [] && serial[0] == '0' then SerialKey(serial[1..]) else serial
  }

  // The key of a serial number is the number without its leading zeros, so keys agree exactly if the rest does.
  lemma {:induction false} KeyHasNoZeros(serial: string) returns (k: nat)
    ensures k <= |serial| && SerialKey(serial) == serial[k..] && (forall i :: 0 <= i < k ==> serial[i] == '0')
    ensures SerialKey(serial) != [] ==> SerialKey(serial)[0] != '0'
  {
    if serial != [] && serial[0] == '0' {
      k := KeyHasNoZeros(serial[1..]);
      assert serial[1..][k..] == serial[k + 1..];
      assert forall i :: 0 < i < k + 1 ==> serial[i] == serial[1..][i - 1];
      k := k + 1;
    } else {
      k := 0;
    }
  }

  predicate IsHexDigit(c: char) {
    '0' <= c <= '9' || 'a' <= c <= 'f' || 'A' <= c <= 'F'
  }

  // An even number of at least two digits, perhaps after a minus sign
  predicate WellFormedSerial(s: string) {
    var digits := if s != [] && s[0] == '-' then s[1..] else s;
    |digits| >= 2 && |digits| % 2 == 0 && forall c :: c in digits ==> IsHexDigit(c)
  }

  // The row with this serial number, or the number of rows
  function FindSerial(rows: seq<Entry>, serial: string): (i: nat)
    ensures i <= |rows| && (i < |rows| ==> SerialKey(rows[i].serial) == SerialKey(serial))
    ensures forall k :: 0 <= k < i ==> SerialKey(rows[k].serial) != SerialKey(serial)
  {
    if rows == [] || SerialKey(rows[0].serial) == SerialKey(serial) then 0 else 1 + FindSerial(rows[1..], serial)
  }

  // ----- What is kept -----

  // The checks that ca_main makes of each row it has loaded
  predicate Sound(e: Entry, formats: Formats) {
    && (e.typ != 'R' ==> e.revoked == "")
    && (e.typ == 'R' ==> Unpack(e.revoked, formats) != None)
    && formats.anyTime(e.expires)
    && WellFormedSerial(e.serial)
  }

  predicate AllSound(rows: seq<Entry>, formats: Formats) {
    forall i :: 0 <= i < |rows| ==> Sound(rows[i], formats)
  }

  predicate DistinctSerials(rows: seq<Entry>) {
    forall i, k :: 0 <= i < k < |rows| ==> SerialKey(rows[i].serial) != SerialKey(rows[k].serial)
  }

  predicate DistinctNames(rows: seq<Entry>, named: seq<bool>)
    requires |named| == |rows|
  {
    forall i, k :: 0 <= i < k < |rows| && named[i] && named[k] ==> rows[i].name != rows[k].name
  }

  // The name index is not corrected when a row expires or is revoked, but it never lacks a valid row.
  predicate Indexed(s: State) {
    && |s.named| == |s.rows|
    && (forall i :: 0 <= i < |s.rows| && s.rows[i].typ == 'V' ==> s.named[i] == s.unique)
    && (forall i :: 0 <= i < |s.rows| && s.named[i] ==> s.unique)
  }

  predicate Checked(s: State, formats: Formats) {
    Indexed(s) && AllSound(s.rows, formats) && DistinctSerials(s.rows) && DistinctNames(s.rows, s.named)
  }

  // The life of a row: it stays what it is, expires if it is valid, or is revoked for good.
  predicate Ages(a: Entry, b: Entry) {
    && a.(typ := b.typ, revoked := b.revoked) == b
    && (a.typ == 'R' ==> b == a)
    && (b.typ == a.typ || b.typ == 'R' || (a.typ == 'V' && b.typ == 'E'))
  }

  // No row is lost or moved.
  predicate Grows(s: State, t: State) {
    && |s.rows| <= |t.rows|
    && forall i :: 0 <= i < |s.rows| ==> Ages(s.rows[i], t.rows[i])
  }

  // ----- The operations -----

  // The checks of TXT_DB_insert
  predicate Accepts(s: State, e: Entry)
    requires |s.named| == |s.rows|
  {
    && FindSerial(s.rows, e.serial) == |s.rows|
    && (s.unique && e.typ == 'V' ==> forall i :: 0 <= i < |s.rows| && s.named[i] ==> s.rows[i].name != e.name)
  }

  function Insert(s: State, e: Entry): State {
    State(s.rows + [e], s.named + [s.unique && e.typ == 'V'], s.unique)
  }

  function NewRow(cert: Certificate): Entry {
    Entry('V', cert.notAfter, "", cert.serial, "unknown", cert.name)
  }

  datatype Result = Result(ok: bool, state: State)

  // The end of do_body
  function Issue(s: State, cert: Certificate): Result
    requires |s.named| == |s.rows|
  {
    if Accepts(s, NewRow(cert)) then Result(true, Insert(s, NewRow(cert))) else Result(false, s)
  }

  function RevokeRow(s: State, i: nat, revType: int, arg: string, now: string, formats: Formats): Result
    requires i < |s.rows|
  {
    var row, parts := s.rows[i], PartsOf(revType, arg, formats);
    if row.typ == 'R' || parts == Invalid then Result(false, s)
    else Result(true, s.(rows := s.rows[i := row.(typ := 'R', revoked := Printed(now, parts))]))
  }

  // do_revoke; type -1 only enters the certificate.
  function Revoke(s: State, cert: Certificate, revType: int, arg: string, now: string, formats: Formats): Result
    requires |s.named| == |s.rows|
  {
    var i := FindSerial(s.rows, cert.serial);
    if i == |s.rows| then
      var issued := Issue(s, cert);
      if !issued.ok || revType == -1 then issued else RevokeRow(issued.state, i, revType, arg, now, formats)
    else if s.rows[i].name != cert.name || revType == -1 then Result(false, s)
    else RevokeRow(s, i, revType, arg, now, formats)
  }

  function ExpireRow(e: Entry, now: string): Entry {
    if e.typ == 'V' && MarksExpired(e.expires, now) then e.(typ := 'E') else e
  }

  function ExpireRows(rows: seq<Entry>, now: string): (r: seq<Entry>)
    ensures |r| == |rows| && forall i :: 0 <= i < |rows| ==> r[i] == ExpireRow(rows[i], now)
  {
    if rows == [] then [] else ExpireRows(rows[..|rows| - 1], now) + [ExpireRow(rows[|rows| - 1], now)]
  }

  function CountExpired(rows: seq<Entry>, now: string): nat {
    if rows == [] then 0
    else
      var last := rows[|rows| - 1];
      CountExpired(rows[..|rows| - 1], now) + if last.typ == 'V' && MarksExpired(last.expires, now) then 1 else 0
  }

  // do_updatedb
  function Expire(s: State, now: string): State {
    s.(rows := ExpireRows(s.rows, now))
  }

  // ----- Every operation keeps the database checked -----

  lemma InsertKeeps(s: State, e: Entry, formats: Formats)
    requires Checked(s, formats) && Accepts(s, e) && Sound(e, formats)
    ensures Checked(Insert(s, e), formats) && Grows(s, Insert(s, e))
  {
    hide Sound, SerialKey;
  }

  lemma IssueKeeps(s: State, cert: Certificate, formats: Formats)
    requires Checked(s, formats) && Sound(NewRow(cert), formats)
    ensures var r := Issue(s, cert); Checked(r.state, formats) && Grows(s, r.state)
  {
    hide Sound, Grows, DistinctSerials, DistinctNames, AllSound;
    if Accepts(s, NewRow(cert)) {
      InsertKeeps(s, NewRow(cert), formats);
    } else {
      GrowsReflexive(s);
    }
  }

  lemma GrowsReflexive(s: State)
    ensures Grows(s, s)
  {
  }

  lemma GrowsTransitive(s: State, t: State, u: State)
    requires Grows(s, t) && Grows(t, u)
    ensures Grows(s, u)
  {
    forall i | 0 <= i < |s.rows| ensures Ages(s.rows[i], u.rows[i]) {
      assert Ages(s.rows[i], t.rows[i]) && Ages(t.rows[i], u.rows[i]);
    }
  }

  // Changing the type and the revocation field of rows, never back to V, keeps the indexes right.
  lemma AgingKeeps(s: State, t: State, formats: Formats)
    requires Checked(s, formats) && Grows(s, t) && |t.rows| == |s.rows|
    requires t.named == s.named && t.unique == s.unique
    requires forall i :: 0 <= i < |t.rows| ==> Sound(t.rows[i], formats)
    requires forall i :: 0 <= i < |t.rows| && t.rows[i].typ == 'V' ==> s.rows[i].typ == 'V'
    ensures Checked(t, formats)
  {
    hide Sound, SerialKey;
    forall i | 0 <= i < |s.rows| ensures t.rows[i].serial == s.rows[i].serial && t.rows[i].name == s.rows[i].name {
      assert Ages(s.rows[i], t.rows[i]);
    }
  }

  lemma RevokeRowKeeps(s: State, i: nat, revType: int, arg: string, now: string, formats: Formats)
    requires Checked(s, formats) && i < |s.rows| && formats.utcTime(now) && ',' !in now
    ensures var r := RevokeRow(s, i, revType, arg, now, formats); Checked(r.state, formats) && Grows(s, r.state)
  {
    hide PartsOf, Unpack, WellFormedSerial, Printed, SerialKey, ValidArgument, Meant;
    UnpackOfPrinted(revType, arg, now, formats);
    var r := RevokeRow(s, i, revType, arg, now, formats);
    if r.ok {
      assert Sound(s.rows[i], formats);
      AgingKeeps(s, r.state, formats);
    }
  }

  lemma RevokeKeeps(s: State, cert: Certificate, revType: int, arg: string, now: string, formats: Formats)
    requires Checked(s, formats) && Sound(NewRow(cert), formats) && formats.utcTime(now) && ',' !in now
    ensures var r := Revoke(s, cert, revType, arg, now, formats); Checked(r.state, formats) && Grows(s, r.state)
  {
    hide RevokeRow, Sound, Grows, DistinctSerials, DistinctNames, AllSound;
    GrowsReflexive(s);
    var i := FindSerial(s.rows, cert.serial);
    if i < |s.rows| {
      RevokeRowKeeps(s, i, revType, arg, now, formats);
    } else {
      IssueKeeps(s, cert, formats);
      var issued := Issue(s, cert);
      if issued.ok {
        RevokeRowKeeps(issued.state, i, revType, arg, now, formats);
        GrowsTransitive(s, issued.state, RevokeRow(issued.state, i, revType, arg, now, formats).state);
      }
    }
  }

  lemma ExpireKeeps(s: State, now: string, formats: Formats)
    requires Checked(s, formats)
    ensures Checked(Expire(s, now), formats) && Grows(s, Expire(s, now))
  {
    hide WellFormedSerial, SerialKey, MarksExpired, Unpack, DistinctSerials, DistinctNames, Indexed;
    AgingKeeps(s, Expire(s, now), formats);
  }

  // ----- Saving and loading -----

  // The state that index_index builds from rows
  function Loaded(rows: seq<Entry>, unique: bool): State {
    State(rows, seq(|rows|, i requires 0 <= i < |rows| => unique && rows[i].typ == 'V'), unique)
  }

  // The checks made when a database is loaded: each row is sound and neither index meets a clash.
  predicate Loads(rows: seq<Entry>, unique: bool, formats: Formats) {
    AllSound(rows, formats) && DistinctSerials(rows) && DistinctNames(rows, Loaded(rows, unique).named)
  }

  lemma LoadedIsChecked(rows: seq<Entry>, unique: bool, formats: Formats)
    requires Loads(rows, unique, formats)
    ensures Checked(Loaded(rows, unique), formats)
  {
    hide Sound, SerialKey;
  }

  // The name index still holds this name for a row that is no longer valid.
  predicate StaleName(s: State, name: string)
    requires |s.named| == |s.rows|
  {
    exists i :: 0 <= i < |s.rows| && s.named[i] && s.rows[i].typ != 'V' && s.rows[i].name == name
  }

  // A checked database, saved, passes the checks again. Loaded anew it accepts what it accepted before, and beyond
  // that only the names of rows that have expired or been revoked since.
  lemma ReloadAcceptsMore(s: State, e: Entry, formats: Formats)
    requires Checked(s, formats)
    ensures Loads(s.rows, s.unique, formats)
    ensures Accepts(s, e) <==> Accepts(Loaded(s.rows, s.unique), e) && !(e.typ == 'V' && StaleName(s, e.name))
  {
    hide Sound, SerialKey;
  }

  // The next invocation of the program, which may ask for unique subjects or not; it gives up if the checks fail.
  function Reload(s: State, unique: bool, formats: Formats): State {
    if Loads(s.rows, unique, formats) then Loaded(s.rows, unique) else s
  }

  // It fails only where unique subjects are asked for anew and two valid rows share a name.
  lemma ReloadKeeps(s: State, unique: bool, formats: Formats)
    requires Checked(s, formats)
    ensures Checked(Reload(s, unique, formats), formats) && Grows(s, Reload(s, unique, formats))
    ensures Loads(s.rows, unique, formats) <==> (unique ==> ValidNamesDistinct(s))
    ensures s.unique || !unique ==> Loads(s.rows, unique, formats)
  {
    hide Sound, SerialKey;
    GrowsReflexive(s);
    if Loads(s.rows, unique, formats) {
      LoadedIsChecked(s.rows, unique, formats);
    }
  }

  predicate ValidNamesDistinct(s: State) {
    forall i, k :: 0 <= i < k < |s.rows| && s.rows[i].typ == 'V' && s.rows[k].typ == 'V'
      ==> s.rows[i].name != s.rows[k].name
  }

  // ----- Runs -----

  datatype Step =
    | IssueStep(cert: Certificate)
    | RevokeStep(cert: Certificate, revType: int, arg: string, now: string)
    | ExpireStep(now: string)
    | ReloadStep(unique: bool)

  // A run may extend over several invocations of the program: between two of them the database is saved and loaded.
  // A step concerns a certificate whose fields the library has printed, at a time that it has printed.
  predicate Proper(step: Step, formats: Formats) {
    match step
    case IssueStep(cert) => Sound(NewRow(cert), formats)
    case RevokeStep(cert, _, _, now) => Sound(NewRow(cert), formats) && formats.utcTime(now) && ',' !in now
    case ExpireStep(_) => true
    case ReloadStep(_) => true
  }

  function Apply(s: State, step: Step, formats: Formats): (t: State)
    requires |s.named| == |s.rows|
    ensures |t.named| == |t.rows|
  {
    match step
    case IssueStep(cert) => Issue(s, cert).state
    case RevokeStep(cert, revType, arg, now) => Revoke(s, cert, revType, arg, now, formats).state
    case ExpireStep(now) => Expire(s, now)
    case ReloadStep(unique) => Reload(s, unique, formats)
  }

  function Run(s: State, steps: seq<Step>, formats: Formats): State
    requires |s.named| == |s.rows|
    decreases |steps|
  {
    if steps == [] then s else Run(Apply(s, steps[0], formats), steps[1..], formats)
  }

  lemma ApplyKeeps(s: State, step: Step, formats: Formats)
    requires Checked(s, formats) && Proper(step, formats)
    ensures Checked(Apply(s, step, formats), formats) && Grows(s, Apply(s, step, formats))
  {
    match step
    case IssueStep(cert) => IssueKeeps(s, cert, formats);
    case RevokeStep(cert, revType, arg, now) => RevokeKeeps(s, cert, revType, arg, now, formats);
    case ExpireStep(now) => ExpireKeeps(s, now, formats);
    case ReloadStep(unique) => ReloadKeeps(s, unique, formats);
  }

  // Whatever is issued, revoked, expired and loaded again, and whether or not it succeeds: no row is lost, serial
  // numbers stay distinct, revoked rows stay as they are, and with unique subjects no two valid rows share a name.
  lemma {:induction false} RunKeeps(s: State, steps: seq<Step>, formats: Formats)
    requires Checked(s, formats) && forall step :: step in steps ==> Proper(step, formats)
    ensures Checked(Run(s, steps, formats), formats) && Grows(s, Run(s, steps, formats))
    ensures Run(s, steps, formats).unique ==> ValidNamesDistinct(Run(s, steps, formats))
    ensures !formats.utcTime("") ==> RevokedExactly(Run(s, steps, formats))
    ensures Readable(Run(s, steps, formats), formats)
    decreases |steps|
  {
    hide Sound, Proper, Apply;
    if steps == [] {
      GrowsReflexive(s);
      CheckedMeans(s, formats);
    } else {
      var t := Apply(s, steps[0], formats);
      ApplyKeeps(s, steps[0], formats);
      RunKeeps(t, steps[1..], formats);
      GrowsTransitive(s, t, Run(t, steps[1..], formats));
    }
  }

  // The revocation field is filled in exactly the revoked rows.
  predicate RevokedExactly(s: State) {
    forall i :: 0 <= i < |s.rows| ==> (s.rows[i].revoked != "" <==> s.rows[i].typ == 'R')
  }

  // Every row has a last day that is a date, a serial number in pairs of hexadecimal digits, and a field that can be
  // read if it is revoked.
  predicate Readable(s: State, formats: Formats) {
    forall i :: 0 <= i < |s.rows| ==>
      && formats.anyTime(s.rows[i].expires) && WellFormedSerial(s.rows[i].serial)
      && (s.rows[i].typ == 'R' ==> Unpack(s.rows[i].revoked, formats).Some?)
  }

  lemma CheckedMeans(s: State, formats: Formats)
    requires Checked(s, formats)
    ensures Readable(s, formats)
    ensures s.unique ==> ValidNamesDistinct(s)
    ensures !formats.utcTime("") ==> RevokedExactly(s)
  {
    hide SerialKey, WellFormedSerial;
    assert Readable(s, formats) by {
      hide Unpack;
      forall i | 0 <= i < |s.rows| ensures Sound(s.rows[i], formats) {
      }
    }
    forall i | 0 <= i < |s.rows| && !formats.utcTime("")
      ensures s.rows[i].revoked != "" <==> s.rows[i].typ == 'R'
    {
      assert Sound(s.rows[i], formats);
    }
  }

  // ----- What a revocation leaves behind -----

  lemma FindIsUnique(rows: seq<Entry>, serial: string, i: nat)
    requires DistinctSerials(rows) && i < |rows| && SerialKey(rows[i].serial) == SerialKey(serial)
    ensures FindSerial(rows, serial) == i
  {
  }

  // A revocation that succeeds has left one row of this serial number, with the name of the certificate, and its
  // field reads back as the time, the reason and the argument that were given. All other rows are as before.
  lemma RevokeRecords(s: State, cert: Certificate, revType: int, arg: string, now: string, formats: Formats)
    requires Checked(s, formats) && formats.utcTime(now) && ',' !in now && revType != -1
    requires Revoke(s, cert, revType, arg, now, formats).ok
    ensures var t, i := Revoke(s, cert, revType, arg, now, formats).state, FindSerial(s.rows, cert.serial);
            && i < |t.rows| && t.rows[i].typ == 'R' && t.rows[i].name == cert.name
            && SerialKey(t.rows[i].serial) == SerialKey(cert.serial)
            && Unpack(t.rows[i].revoked, formats) == Some(Meant(revType, arg, now))
            && |t.rows| == (if i == |s.rows| then i + 1 else |s.rows|)
            && t.rows[i].(typ := 'V', revoked := "")
               == (if i == |s.rows| then NewRow(cert) else s.rows[i].(typ := 'V', revoked := ""))
            && t.named == (if i == |s.rows| then s.named + [s.unique] else s.named) && t.unique == s.unique
            && forall k :: 0 <= k < |s.rows| && k != i ==> t.rows[k] == s.rows[k]
  {
    hide PartsOf, Unpack, Printed, SerialKey, ValidArgument, Meant;
    UnpackOfPrinted(revType, arg, now, formats);
  }

  // A certificate is entered exactly if no row has its serial number, apart from leading zeros, and with unique
  // subjects the name index does not hold its name. It then is the last row, valid and not revoked.
  ghost predicate Enters(s: State, cert: Certificate, r: Result)
    requires |s.named| == |s.rows|
  {
    var clash := exists k :: 0 <= k < |s.rows| && (SerialKey(s.rows[k].serial) == SerialKey(cert.serial)
                                                   || (s.named[k] && s.rows[k].name == cert.name));
    var row := Entry('V', cert.notAfter, "", cert.serial, "unknown", cert.name);
    && (r.ok <==> !clash) && (!r.ok ==> r.state == s)
    && (r.ok ==> r.state.rows == s.rows + [row] && r.state.named == s.named + [s.unique]
                 && r.state.unique == s.unique)
  }

  lemma IssueRecords(s: State, cert: Certificate, formats: Formats)
    requires Checked(s, formats)
    ensures Enters(s, cert, Issue(s, cert))
  {
    hide SerialKey, Sound, AllSound, FindSerial;
  }

  // ca -valid, which passes -1 for the type of revocation, enters the certificate in the same way and revokes nothing;
  // a serial number that is known already is refused.
  lemma EnteringRecords(s: State, cert: Certificate, arg: string, now: string, formats: Formats)
    requires Checked(s, formats)
    ensures Enters(s, cert, Revoke(s, cert, -1, arg, now, formats))
  {
    hide SerialKey, Sound, AllSound, FindSerial;
    IssueRecords(s, cert, formats);
    var i := FindSerial(s.rows, cert.serial);
    if i < |s.rows| {
      assert SerialKey(s.rows[i].serial) == SerialKey(cert.serial);
    }
  }

  // A revocation that fails changes nothing; but where only its argument is at fault, a certificate that was not known
  // has been entered.
  lemma RevokeFails(s: State, cert: Certificate, revType: int, arg: string, now: string, formats: Formats)
    requires Checked(s, formats) && formats.utcTime(now) && ',' !in now && revType != -1
    requires !Revoke(s, cert, revType, arg, now, formats).ok
    ensures Revoke(s, cert, revType, arg, now, formats).state
         == if !ValidArgument(revType, arg, formats) && Issue(s, cert).ok then Issue(s, cert).state else s
  {
    hide PartsOf, Unpack, Printed, SerialKey, ValidArgument, Meant;
    UnpackOfPrinted(revType, arg, now, formats);
  }

  // The argument is valid, and the serial number is either known under this name and not yet revoked, or unknown
  // with its name still free.
  predicate Revocable(s: State, cert: Certificate, revType: int, arg: string, formats: Formats)
    requires |s.named| == |s.rows|
  {
    && ValidArgument(revType, arg, formats)
    && (Accepts(s, NewRow(cert))
        || exists i :: 0 <= i < |s.rows| && SerialKey(s.rows[i].serial) == SerialKey(cert.serial)
                       && s.rows[i].name == cert.name && s.rows[i].typ != 'R')
  }

  lemma RevokeSucceeds(s: State, cert: Certificate, revType: int, arg: string, now: string, formats: Formats)
    requires Checked(s, formats) && formats.utcTime(now) && ',' !in now && revType != -1
    ensures Revoke(s, cert, revType, arg, now, formats).ok <==> Revocable(s, cert, revType, arg, formats)
  {
    hide PartsOf, Unpack, Printed, SerialKey, ValidArgument, Meant;
    UnpackOfPrinted(revType, arg, now, formats);
    var i := FindSerial(s.rows, cert.serial);
    if i < |s.rows| {
      forall k | 0 <= k < |s.rows| && SerialKey(s.rows[k].serial) == SerialKey(cert.serial) ensures k == i {
        FindIsUnique(s.rows, cert.serial, k);
      }
    }
  }

  // ----- Expiry -----

  // The second pass at the same time finds nothing left to do.
  lemma ExpireTwice(s: State, now: string)
    ensures Expire(Expire(s, now), now) == Expire(s, now)
    ensures CountExpired(Expire(s, now).rows, now) == 0
  {
    hide MarksExpired;
    NoneExpired(Expire(s, now).rows, now);
  }

  lemma {:induction false} NoneExpired(rows: seq<Entry>, now: string)
    requires forall i :: 0 <= i < |rows| ==> ExpireRow(rows[i], now) == rows[i]
    ensures CountExpired(rows, now) == 0
  {
    hide MarksExpired;
    if rows != [] {
      NoneExpired(rows[..|rows| - 1], now);
      assert ExpireRow(rows[|rows| - 1], now) == rows[|rows| - 1];
    }
  }

  // The positions of the rows that a pass changes
  function Changed(rows: seq<Entry>, now: string): set<int> {
    set i | 0 <= i < |rows| && ExpireRow(rows[i], now) != rows[i]
  }

  lemma ChangedSnoc(rows: seq<Entry>, e: Entry, now: string)
    ensures Changed(rows + [e], now) == Changed(rows, now) + if ExpireRow(e, now) != e then {|rows|} else {}
    ensures |rows| !in Changed(rows, now)
  {
    hide ExpireRow;
    var all := rows + [e];
    assert all[|rows|] == e && forall i :: 0 <= i < |rows| ==> all[i] == rows[i];
  }

  // The number reported is the number of rows that changed.
  lemma {:induction false} CountIsChanges(rows: seq<Entry>, now: string)
    ensures CountExpired(rows, now) == |Changed(rows, now)|
  {
    if rows == [] {
      assert Changed(rows, now) == {};
    } else {
      hide ExpireRow, Changed, MarksExpired;
      var n := |rows| - 1;
      assert rows == rows[..n] + [rows[n]];
      CountIsChanges(rows[..n], now);
      ChangesIfMarked(rows[n], now);
      ChangedSnoc(rows[..n], rows[n], now);
    }
  }

  lemma ChangesIfMarked(e: Entry, now: string)
    ensures ExpireRow(e, now) != e <==> e.typ == 'V' && MarksExpired(e.expires, now)
  {
    hide MarksExpired;
  }

  // A valid row of the form up to 2049 becomes expired exactly when its date is not later than the clock.
  lemma ExpireIsChronological(s: State, now: string, i: nat)
    requires i < |s.rows| && IsUtcTime(s.rows[i].expires) && IsUtcTime(now)
    ensures Expire(s, now).rows[i].typ
         == if s.rows[i].typ == 'V' && NotLater(UtcMoment(s.rows[i].expires), UtcMoment(now)) then 'E'
            else s.rows[i].typ
    ensures Expire(s, now).rows[i] == s.rows[i].(typ := Expire(s, now).rows[i].typ)
    ensures Expire(s, now).named == s.named && Expire(s, now).unique == s.unique
  {
    hide MarksExpired, NotLater;
    ExpiryIsChronological(s.rows[i].expires, now);
  }
}
