/**
 The options -signer, -inkey and -keyopt of the cms program: two lists of files and a list of parameter blocks have
 to be kept in step while the options come in.
 */
module CmsSigners {
  import opened Options

  datatype Operation = NoOperation | Encrypt | Sign | Resign | OtherOperation

  datatype Opt =
    | Signer(file: string)
    | Inkey(file: string)
    | Keyopt(param: string)
    | Recip(file: string)
    | SetOperation(op: Operation)

  // cms_key_param: the parameters for the key with this number
  datatype Block = Block(idx: int, params: seq<string>)

  // ----- What the options mean -----

  // One signer as the user writes it, with a key of its own perhaps, and parameters for its key
  datatype Pair = Pair(signer: Option<string>, key: Option<string>, params: seq<string>)

  // The pairs that are complete and the one that options still add to
  datatype Pairing = Pairing(closed: seq<Pair>, current: Pair)

  const NO_PAIR := Pair(None, None, [])

  // A second signer or a second key begins a new pair; a key that never got its signer is an error.
  function Extend(p: Pairing, o: Opt): Option<Pairing> {
    var c := p.current;
    match o
    case Signer(f) =>
      if c.signer.Some? then Some(Pairing(p.closed + [c], Pair(Some(f), None, [])))
      else Some(p.(current := c.(signer := Some(f))))
    case Inkey(f) =>
      if c.key.None? then Some(p.(current := c.(key := Some(f))))
      else if c.signer.None? then None
      else Some(Pairing(p.closed + [c], Pair(None, Some(f), [])))
    case Keyopt(s) =>
      if c.signer.None? && c.key.None? then None
      else Some(p.(current := c.(params := c.params + [s])))
    case _ => Some(p)
  }

  function ExtendAll(opts: seq<Opt>): Option<Pairing> {
    if opts == [] then Some(Pairing([], NO_PAIR))
    else
      match ExtendAll(opts[..|opts| - 1])
      case None => None
      case Some(p) => Extend(p, opts[|opts| - 1])
  }

  // All pairs once the options have ended; every one has to have a signer, and there has to be one.
  function Pairs(opts: seq<Opt>): Option<seq<Pair>> {
    match ExtendAll(opts)
    case None => None
    case Some(p) => if p.current.signer.Some? then Some(p.closed + [p.current]) else None
  }

  // What is done for one signer
  datatype Info = Info(signer: string, key: string, params: seq<string>)

  // A signer without a key of its own is its own key.
  function InfoOf(p: Pair): Info
    requires p.signer.Some?
  {
    Info(p.signer.value, if p.key.Some? then p.key.value else p.signer.value, p.params)
  }

  predicate AllSigned(pairs: seq<Pair>) {
    forall i :: 0 <= i < |pairs| ==> pairs[i].signer.Some?
  }

  function Infos(pairs: seq<Pair>): (infos: seq<Info>)
    requires AllSigned(pairs)
    ensures |infos| == |pairs| && forall i :: 0 <= i < |pairs| ==> infos[i] == InfoOf(pairs[i])
  {
    if pairs == [] then [] else Infos(pairs[..|pairs| - 1]) + [InfoOf(pairs[|pairs| - 1])]
  }

  lemma {:induction false} ClosedAreSigned(opts: seq<Opt>)
    ensures ExtendAll(opts).Some? ==> AllSigned(ExtendAll(opts).value.closed)
  {
    if opts != [] {
      ClosedAreSigned(opts[..|opts| - 1]);
    }
  }

  // What the user asks for, or None if a signer or a key has no place
  function Wanted(opts: seq<Opt>): Option<seq<Info>> {
    ClosedAreSigned(opts);
    match Pairs(opts)
    case None => None
    case Some(pairs) => Some(Infos(pairs))
  }

  // The list of blocks that goes with the pairs: one for each pair with parameters
  function Blocks(pairs: seq<Pair>): seq<Block> {
    if pairs == [] then []
    else
      var n := |pairs| - 1;
      Blocks(pairs[..n]) + if pairs[n].params == [] then [] else [Block(n, pairs[n].params)]
  }

  // ----- What the program does -----

  // The variables of cms_main; a stack that was never made is an empty list.
  datatype State = State(
    operation: Operation, encerts: nat,
    signerfile: Option<string>, keyfile: Option<string>,
    signers: seq<string>, keys: seq<string>, blocks: seq<Block>)

  function Initial(): State {
    State(NoOperation, 0, None, None, [], [], [])
  }

  function KeyIdx(s: State): int {
    if s.operation == Encrypt then s.encerts - 1
    else |s.keys| - if s.signerfile.Some? || s.keyfile.Some? then 0 else 1
  }

  function AddParam(blocks: seq<Block>, idx: int, param: string): seq<Block> {
    var n := |blocks|;
    if n == 0 || blocks[n - 1].idx != idx then blocks + [Block(idx, [param])]
    else blocks[n - 1 := Block(idx, blocks[n - 1].params + [param])]
  }

  // One round of the option loop; None when the program gives up
  function Step(s: State, o: Opt): Option<State> {
    match o
    case Signer(f) =>
      if s.signerfile.None? then Some(s.(signerfile := Some(f)))
      else
        var key := if s.keyfile.Some? then s.keyfile.value else s.signerfile.value;
        Some(s.(signers := s.signers + [s.signerfile.value], keys := s.keys + [key],
                signerfile := Some(f), keyfile := None))
    case Inkey(f) =>
      if s.keyfile.None? then Some(s.(keyfile := Some(f)))
      else if s.signerfile.None? then None
      else Some(s.(signers := s.signers + [s.signerfile.value], keys := s.keys + [s.keyfile.value],
                   signerfile := None, keyfile := Some(f)))
    case Keyopt(param) =>
      if KeyIdx(s) < 0 then None else Some(s.(blocks := AddParam(s.blocks, KeyIdx(s), param)))
    case Recip(_) => Some(if s.operation == Encrypt then s.(encerts := s.encerts + 1) else s)
    case SetOperation(op) => Some(s.(operation := op))
  }

  function StepAll(opts: seq<Opt>): Option<State> {
    if opts == [] then Some(Initial())
    else
      match StepAll(opts[..|opts| - 1])
      case None => None
      case Some(s) => Step(s, opts[|opts| - 1])
  }

  // The first block of this number
  function Lookup(blocks: seq<Block>, i: int): seq<string> {
    if blocks == [] then []
    else if blocks[0].idx == i then blocks[0].params
    else Lookup(blocks[1..], i)
  }

  class Program {
    var operation: Operation
    var encerts: nat
    var signerfile: Option<string>
    var keyfile: Option<string>
    var sksigners: seq<string>
    var skkeys: seq<string>
    var keyParams: seq<Block>

    ghost function View(): State
      reads this
    {
      State(operation, encerts, signerfile, keyfile, sksigners, skkeys, keyParams)
    }

    constructor ()
      ensures View() == Initial()
    {
      operation, encerts := NoOperation, 0;
      signerfile, keyfile := None, None;
      sksigners, skkeys, keyParams := [], [], [];
    }

    // The option loop of cms_main
    method ReadOptions(opts: seq<Opt>) returns (ok: bool)
      requires View() == Initial()
      modifies this
      ensures ok == StepAll(opts).Some?
      ensures ok ==> View() == StepAll(opts).value
    {
      var i := 0;
      while i < |opts|
        invariant 0 <= i <= |opts|
        invariant StepAll(opts[..i]) == Some(View())
      {
        assert opts[..i + 1][..i] == opts[..i];
        ok := ReadOption(opts[i]);
        if !ok {
          NeverRecovers(opts, i + 1);
          return;
        }
        i := i + 1;
      }
      assert opts[..i] == opts;
      ok := true;
    }

    method ReadOption(o: Opt) returns (ok: bool)
      modifies this
      ensures ok == Step(old(View()), o).Some?
      ensures ok ==> View() == Step(old(View()), o).value
    {
      ok := true;
      match o {
        case Signer(f) =>
          if signerfile.Some? {
            sksigners := sksigners + [signerfile.value];
            if keyfile.None? {
              keyfile := signerfile;
            }
            skkeys := skkeys + [keyfile.value];
            keyfile := None;
          }
          signerfile := Some(f);
        case Inkey(f) =>
          if keyfile.Some? {
            if signerfile.None? {
              return false;
            }
            sksigners := sksigners + [signerfile.value];
            signerfile := None;
            skkeys := skkeys + [keyfile.value];
          }
          keyfile := Some(f);
        case Keyopt(param) =>
          var keyidx := -1;
          if operation == Encrypt {
            keyidx := keyidx + encerts;
          } else {
            if keyfile.Some? || signerfile.Some? {
              keyidx := keyidx + 1;
            }
            keyidx := keyidx + |skkeys|;
          }
          if keyidx < 0 {
            return false;
          }
          if keyParams == [] || keyParams[|keyParams| - 1].idx != keyidx {
            keyParams := keyParams + [Block(keyidx, [])];
          }
          assert [] + [param] == [param];
          var last := |keyParams| - 1;
          keyParams := keyParams[last := Block(keyidx, keyParams[last].params + [param])];
        case Recip(_) =>
          if operation == Encrypt {
            encerts := encerts + 1;
          }
        case SetOperation(op) =>
          operation := op;
      }
    }

    // What comes after the options for sign and resign: the last signer is added, or the program gives up.
    method AddFinalSigner() returns (ok: bool)
      requires operation == Sign || operation == Resign
      modifies this
      ensures ok == Closes(old(View())).Some?
      ensures ok ==> View() == Closes(old(View())).value
    {
      if keyfile.Some? && signerfile.None? {
        return false;
      }
      if signerfile.Some? {
        sksigners := sksigners + [signerfile.value];
        if keyfile.None? {
          keyfile := signerfile;
        }
        skkeys := skkeys + [keyfile.value];
      }
      if sksigners == [] {
        return false;
      }
      signerfile, keyfile := None, None;
      ok := true;
    }

    // The loop that adds the signers to the message
    method AddSigners() returns (infos: seq<Info>)
      requires |sksigners| == |skkeys|
      ensures |infos| == |sksigners|
      ensures forall i :: 0 <= i < |infos| ==> infos[i] == Info(sksigners[i], skkeys[i], Lookup(keyParams, i))
    {
      infos := [];
      var i := 0;
      while i < |sksigners|
        invariant 0 <= i == |infos| <= |sksigners|
        invariant forall j :: 0 <= j < i ==> infos[j] == Info(sksigners[j], skkeys[j], Lookup(keyParams, j))
      {
        var kparam := 0;
        assert keyParams[0..] == keyParams;
        while kparam < |keyParams| && keyParams[kparam].idx != i
          invariant 0 <= kparam <= |keyParams| && Lookup(keyParams[kparam..], i) == Lookup(keyParams, i)
        {
          assert keyParams[kparam..][1..] == keyParams[kparam + 1..];
          kparam := kparam + 1;
        }
        var params := if kparam < |keyParams| then keyParams[kparam].params else [];
        infos := infos + [Info(sksigners[i], skkeys[i], params)];
        i := i + 1;
      }
    }
  }

  function Closes(s: State): Option<State> {
    if s.signerfile.None? && (s.keyfile.Some? || s.signers == []) then None
    else if s.signerfile.None? then Some(s)
    else
      var key := if s.keyfile.Some? then s.keyfile.value else s.signerfile.value;
      Some(s.(signers := s.signers + [s.signerfile.value], keys := s.keys + [key],
              signerfile := None, keyfile := None))
  }

  lemma {:induction false} NeverRecovers(opts: seq<Opt>, n: nat)
    requires n <= |opts| && StepAll(opts[..n]) == None
    ensures StepAll(opts) == None
    decreases |opts| - n
  {
    if n == |opts| {
      assert opts[..n] == opts;
    } else {
      assert opts[..n + 1][..n] == opts[..n];
      NeverRecovers(opts, n + 1);
    }
  }

  // ----- The lists stay in step -----

  ghost predicate Matches(s: State, p: Pairing) {
    && |s.signers| == |p.closed| && |s.keys| == |p.closed| && AllSigned(p.closed)
    && (forall i :: 0 <= i < |p.closed| ==>
          s.signers[i] == InfoOf(p.closed[i]).signer && s.keys[i] == InfoOf(p.closed[i]).key)
    && s.signerfile == p.current.signer && s.keyfile == p.current.key
    && s.blocks == Blocks(p.closed + [p.current])
    && (p.current.signer.None? && p.current.key.None? ==> p == Pairing([], NO_PAIR))
  }

  lemma BlocksSnoc(pairs: seq<Pair>, p: Pair)
    ensures Blocks(pairs + [p]) == Blocks(pairs) + if p.params == [] then [] else [Block(|pairs|, p.params)]
  {
    assert (pairs + [p])[..|pairs|] == pairs;
  }

  ghost predicate IsIncreasing(blocks: seq<Block>) {
    forall b, c :: 0 <= b < c < |blocks| ==> blocks[b].idx < blocks[c].idx
  }

  ghost predicate Below(blocks: seq<Block>, n: nat) {
    forall b :: 0 <= b < |blocks| ==> 0 <= blocks[b].idx < n
  }

  // The numbers of the blocks are numbers of pairs, and they increase.
  lemma {:induction false} BlocksIncrease(pairs: seq<Pair>)
    ensures Below(Blocks(pairs), |pairs|) && IsIncreasing(Blocks(pairs))
  {
    if pairs != [] {
      BlocksIncrease(pairs[..|pairs| - 1]);
    }
  }

  lemma CloseBlocks(closed: seq<Pair>, c: Pair, next: Pair)
    requires next.params == []
    ensures Blocks(closed + [c] + [next]) == Blocks(closed + [c])
  {
    BlocksSnoc(closed + [c], next);
  }

  lemma ParamBlocks(closed: seq<Pair>, c: Pair, param: string)
    ensures Blocks(closed + [c.(params := c.params + [param])]) == AddParam(Blocks(closed + [c]), |closed|, param)
  {
    hide Blocks;
    BlocksSnoc(closed, c);
    BlocksSnoc(closed, c.(params := c.params + [param]));
    BlocksIncrease(closed);
    var blocks := Blocks(closed);
    if c.params == [] {
      assert c.params + [param] == [param];
      assert Blocks(closed + [c]) == blocks;
    } else {
      var last := Block(|closed|, c.params);
      assert Blocks(closed + [c]) == blocks + [last];
      assert (blocks + [last])[|blocks| := Block(|closed|, c.params + [param])]
          == blocks + [Block(|closed|, c.params + [param])];
    }
  }

  lemma SameBlocks(closed: seq<Pair>, c: Pair, d: Pair)
    requires c.params == d.params
    ensures Blocks(closed + [c]) == Blocks(closed + [d])
  {
    BlocksSnoc(closed, c);
    BlocksSnoc(closed, d);
  }

  // The number that a -keyopt gets is that of the pair under construction. While the operation is to encrypt it is
  // the number of the last recipient.
  predicate KeyoptFits(s: State) {
    s.operation == Encrypt ==> s.encerts == |s.keys| + 1 && (s.signerfile.Some? || s.keyfile.Some?)
  }

  predicate KeyoptsFit(opts: seq<Opt>) {
    forall k :: 0 <= k < |opts| && opts[k].Keyopt? && StepAll(opts[..k]).Some? ==> KeyoptFits(StepAll(opts[..k]).value)
  }

  // One option keeps the lists in step, or is an error for the program exactly if it is one for the user.
  lemma StepMatches(s: State, p: Pairing, o: Opt)
    requires Matches(s, p) && (o.Keyopt? ==> KeyoptFits(s))
    ensures Step(s, o).Some? == Extend(p, o).Some?
    ensures Step(s, o).Some? ==> Matches(Step(s, o).value, Extend(p, o).value)
  {
    hide Blocks, AddParam;
    var c := p.current;
    match o
    case Signer(f) =>
      CloseBlocks(p.closed, c, Pair(Some(f), None, []));
      SameBlocks(p.closed, c, c.(signer := Some(f)));
    case Inkey(f) =>
      CloseBlocks(p.closed, c, Pair(None, Some(f), []));
      SameBlocks(p.closed, c, c.(key := Some(f)));
    case Keyopt(param) =>
      ParamBlocks(p.closed, c, param);
    case _ =>
  }

  lemma {:induction false} StepAllMatches(opts: seq<Opt>)
    requires KeyoptsFit(opts)
    ensures StepAll(opts).Some? == ExtendAll(opts).Some?
    ensures StepAll(opts).Some? ==> Matches(StepAll(opts).value, ExtendAll(opts).value)
  {
    hide Matches, KeyoptFits, Step, Extend;
    if opts == [] {
      InitialMatches();
    } else {
      var n := |opts| - 1;
      assert forall k :: 0 <= k < n ==> opts[..n][..k] == opts[..k];
      StepAllMatches(opts[..n]);
      if StepAll(opts[..n]).Some? {
        StepMatches(StepAll(opts[..n]).value, ExtendAll(opts[..n]).value, opts[n]);
      }
    }
  }

  lemma InitialMatches()
    ensures Matches(Initial(), Pairing([], NO_PAIR))
  {
    BlocksSnoc([], NO_PAIR);
  }

  lemma {:induction false} LookupIs(blocks: seq<Block>, i: int, b: nat)
    requires b < |blocks| && blocks[b].idx == i && forall c :: 0 <= c < b ==> blocks[c].idx != i
    ensures Lookup(blocks, i) == blocks[b].params
  {
    if b > 0 {
      LookupIs(blocks[1..], i, b - 1);
    }
  }

  lemma {:induction false} LookupFails(blocks: seq<Block>, i: int)
    requires forall c :: 0 <= c < |blocks| ==> blocks[c].idx != i
    ensures Lookup(blocks, i) == []
  {
    if blocks != [] {
      LookupFails(blocks[1..], i);
    }
  }

  // The loop over the signers finds for each the parameters of its own pair.
  lemma {:induction false} BlockOfPair(pairs: seq<Pair>, i: nat)
    requires i < |pairs|
    ensures if pairs[i].params == [] then forall b :: 0 <= b < |Blocks(pairs)| ==> Blocks(pairs)[b].idx != i
            else exists b :: 0 <= b < |Blocks(pairs)| && Blocks(pairs)[b] == Block(i, pairs[i].params)
  {
    var n := |pairs| - 1;
    BlocksIncrease(pairs[..n]);
    if i < n {
      BlockOfPair(pairs[..n], i);
      if pairs[i].params != [] {
        var b :| 0 <= b < |Blocks(pairs[..n])| && Blocks(pairs[..n])[b] == Block(i, pairs[i].params);
        assert Blocks(pairs)[b] == Block(i, pairs[i].params);
      }
    } else if pairs[i].params != [] {
      assert Blocks(pairs)[|Blocks(pairs)| - 1] == Block(i, pairs[i].params);
    }
  }

  lemma LookupOfPair(pairs: seq<Pair>, i: nat)
    requires i < |pairs|
    ensures Lookup(Blocks(pairs), i) == pairs[i].params
  {
    hide Blocks, Lookup;
    BlockOfPair(pairs, i);
    BlocksIncrease(pairs);
    if pairs[i].params == [] {
      LookupFails(Blocks(pairs), i);
    } else {
      var b :| 0 <= b < |Blocks(pairs)| && Blocks(pairs)[b] == Block(i, pairs[i].params);
      LookupIs(Blocks(pairs), i, b);
    }
  }

  // The final state of the program, if it gets there
  function Final(opts: seq<Opt>): Option<State> {
    match StepAll(opts)
    case None => None
    case Some(s) => Closes(s)
  }

  // The signers that the program adds are the pairs that the user gave.
  ghost predicate Aligned(opts: seq<Opt>)
    requires Final(opts).Some?
  {
    var t := Final(opts).value;
    && Wanted(opts).Some?
    && var infos := Wanted(opts).value;
       && |t.signers| == |infos| && |t.keys| == |infos|
       && forall i :: 0 <= i < |infos| ==> infos[i] == Info(t.signers[i], t.keys[i], Lookup(t.blocks, i))
  }

  // If every -keyopt fits, the program succeeds exactly if every signer and key has its place, and then adds each
  // signer with its own key and with the parameters that were given for it.
  lemma SignersAreAligned(opts: seq<Opt>)
    requires KeyoptsFit(opts)
    ensures Final(opts).Some? == Pairs(opts).Some?
    ensures Final(opts).Some? ==> Aligned(opts) && IsIncreasing(Final(opts).value.blocks)
  {
    hide Blocks, Lookup, StepAll, ExtendAll, KeyoptsFit;
    StepAllMatches(opts);
    if Final(opts).Some? {
      var pairs := Pairs(opts).value;
      BlocksIncrease(pairs);
      forall i | 0 <= i < |pairs| ensures Lookup(Blocks(pairs), i) == pairs[i].params {
        LookupOfPair(pairs, i);
      }
    }
  }

  function OperationAfter(opts: seq<Opt>): Operation {
    if opts == [] then NoOperation
    else
      var last := opts[|opts| - 1];
      if last.SetOperation? then last.op else OperationAfter(opts[..|opts| - 1])
  }

  lemma {:induction false} OperationIsLast(opts: seq<Opt>)
    ensures StepAll(opts).Some? ==> StepAll(opts).value.operation == OperationAfter(opts)
  {
    if opts != [] {
      OperationIsLast(opts[..|opts| - 1]);
    }
  }

  // In particular all is well if no -keyopt comes while the operation is to encrypt.
  lemma KeyoptsForSignersFit(opts: seq<Opt>)
    requires forall k :: 0 <= k < |opts| && opts[k].Keyopt? ==> OperationAfter(opts[..k]) != Encrypt
    ensures KeyoptsFit(opts)
  {
    forall k | 0 <= k < |opts| && opts[k].Keyopt? && StepAll(opts[..k]).Some?
      ensures KeyoptFits(StepAll(opts[..k]).value)
    {
      OperationIsLast(opts[..k]);
    }
  }

  // ----- Parameters that do not fit go astray for good -----

  // One -keyopt: the pair it was meant for, and the number it got
  datatype Mark = Mark(meant: int, actual: int)

  function Marks(opts: seq<Opt>): seq<Mark> {
    if opts == [] then []
    else
      var n := |opts| - 1;
      Marks(opts[..n])
      + if opts[n].Keyopt? && StepAll(opts[..n]).Some? then MarkOf(StepAll(opts[..n]).value) else []
  }

  function MarkOf(s: State): seq<Mark> {
    [Mark(|s.keys|, KeyIdx(s))]
  }

  function Meant(marks: seq<Mark>, w: int): nat {
    if marks == [] then 0
    else Meant(marks[..|marks| - 1], w) + if marks[|marks| - 1].meant == w then 1 else 0
  }

  function Actual(marks: seq<Mark>, w: int): nat {
    if marks == [] then 0
    else Actual(marks[..|marks| - 1], w) + if marks[|marks| - 1].actual == w then 1 else 0
  }

  ghost predicate AllHit(marks: seq<Mark>) {
    forall m :: m in marks ==> m.meant == m.actual
  }

  // Marks that missed carry the number of a recipient.
  ghost predicate MissesAreLow(marks: seq<Mark>, encerts: nat) {
    forall m :: m in marks && m.meant != m.actual ==> m.actual < encerts
  }

  // Some pair up to the one under construction has got less than it was meant to.
  ghost predicate FallsShort(marks: seq<Mark>, w: int, pairs: nat) {
    0 <= w <= pairs && Actual(marks, w) < Meant(marks, w)
  }

  lemma {:induction false} HitsCount(marks: seq<Mark>, w: int)
    requires forall m :: m in marks && m.actual == w ==> m.meant == w
    ensures Actual(marks, w) <= Meant(marks, w)
  {
    if marks != [] {
      HitsCount(marks[..|marks| - 1], w);
    }
  }

  lemma CountSnoc(marks: seq<Mark>, m: Mark, w: int)
    ensures Meant(marks + [m], w) == Meant(marks, w) + if m.meant == w then 1 else 0
    ensures Actual(marks + [m], w) == Actual(marks, w) + if m.actual == w then 1 else 0
  {
    assert (marks + [m])[..|marks|] == marks;
  }

  // One more -keyopt cannot make up for what is missing: numbers of recipients only grow.
  lemma StaysShort(marks: seq<Mark>, m: Mark, encerts: nat)
    requires MissesAreLow(marks, encerts) && 0 <= m.meant && (m.meant != m.actual ==> m.actual == encerts - 1)
    requires AllHit(marks) || exists w :: FallsShort(marks, w, m.meant)
    ensures MissesAreLow(marks + [m], encerts)
    ensures AllHit(marks + [m]) || exists w :: FallsShort(marks + [m], w, m.meant)
  {
    hide Meant, Actual;
    if AllHit(marks) {
      if m.meant != m.actual {
        HitsCount(marks, m.meant);
        CountSnoc(marks, m, m.meant);
        assert FallsShort(marks + [m], m.meant, m.meant);
      }
    } else {
      var w :| FallsShort(marks, w, m.meant);
      CountSnoc(marks, m, w);
      if m.meant == m.actual || m.actual != w {
        assert FallsShort(marks + [m], w, m.meant);
      } else {
        HitsCount(marks, m.meant);
        CountSnoc(marks, m, m.meant);
        assert FallsShort(marks + [m], m.meant, m.meant);
      }
    }
  }

  // The files of program and user agree, whatever became of the parameters.
  ghost predicate FilesMatch(s: State, p: Pairing) {
    && |s.signers| == |p.closed| && |s.keys| == |p.closed|
    && s.signerfile == p.current.signer && s.keyfile == p.current.key
    && (p.current.signer.None? && p.current.key.None? ==> p == Pairing([], NO_PAIR))
  }

  // No pair finds more parameters than got its number.
  ghost predicate BlocksCounted(blocks: seq<Block>, marks: seq<Mark>) {
    forall w :: |Lookup(blocks, w)| <= Actual(marks, w)
  }

  ghost predicate ParamsCounted(p: Pairing, marks: seq<Mark>) {
    && (forall w :: 0 <= w < |p.closed| ==> |p.closed[w].params| == Meant(marks, w))
    && |p.current.params| == Meant(marks, |p.closed|)
    && forall m :: m in marks ==> 0 <= m.meant <= |p.closed|
  }

  lemma {:induction false} LookupAdded(blocks: seq<Block>, idx: int, param: string, w: int)
    ensures |Lookup(AddParam(blocks, idx, param), w)| <= |Lookup(blocks, w)| + if w == idx then 1 else 0
  {
    var added := AddParam(blocks, idx, param);
    if blocks == [] {
      assert added == [Block(idx, [param])];
      assert added[1..] == [];
    } else if |blocks| > 1 || blocks[0].idx != idx {
      assert added[1..] == AddParam(blocks[1..], idx, param);
      LookupAdded(blocks[1..], idx, param, w);
    }
  }

  lemma {:induction false} MeantBeyond(marks: seq<Mark>, n: nat)
    requires forall m :: m in marks ==> m.meant < n
    ensures Meant(marks, n) == 0
  {
    if marks != [] {
      MeantBeyond(marks[..|marks| - 1], n);
    }
  }

  lemma FilesStep(s: State, p: Pairing, o: Opt)
    requires FilesMatch(s, p) && Step(s, o).Some?
    ensures Extend(p, o).None? <==> o.Keyopt? && p.current.signer.None? && p.current.key.None?
    ensures Extend(p, o).Some? ==> FilesMatch(Step(s, o).value, Extend(p, o).value)
  {
  }

  lemma ParamsStep(p: Pairing, o: Opt, marks: seq<Mark>, actual: int)
    requires ParamsCounted(p, marks) && Extend(p, o).Some?
    ensures ParamsCounted(Extend(p, o).value, if o.Keyopt? then marks + [Mark(|p.closed|, actual)] else marks)
  {
    hide Meant;
    MeantBeyond(marks, |p.closed| + 1);
    if o.Keyopt? {
      var m := Mark(|p.closed|, actual);
      forall w ensures Meant(marks + [m], w) == Meant(marks, w) + if w == |p.closed| then 1 else 0 {
        CountSnoc(marks, m, w);
      }
    }
  }

  lemma BlocksStep(s: State, o: Opt, marks: seq<Mark>)
    requires BlocksCounted(s.blocks, marks) && Step(s, o).Some?
    ensures BlocksCounted(Step(s, o).value.blocks, if o.Keyopt? then marks + MarkOf(s) else marks)
  {
    hide Lookup, Actual, AddParam;
    if o.Keyopt? {
      forall w ensures |Lookup(Step(s, o).value.blocks, w)| <= Actual(marks + MarkOf(s), w) {
        LookupAdded(s.blocks, KeyIdx(s), o.param, w);
        CountSnoc(marks, MarkOf(s)[0], w);
      }
    }
  }

  ghost predicate Counted(s: State, p: Pairing, marks: seq<Mark>) {
    && FilesMatch(s, p) && BlocksCounted(s.blocks, marks) && ParamsCounted(p, marks)
    && MissesAreLow(marks, s.encerts)
    && (AllHit(marks) || exists w :: FallsShort(marks, w, |p.closed|))
  }

  lemma CountedStep(s: State, p: Pairing, o: Opt, marks: seq<Mark>)
    requires Counted(s, p, marks) && Step(s, o).Some? && Extend(p, o).Some?
    ensures Counted(Step(s, o).value, Extend(p, o).value, if o.Keyopt? then marks + MarkOf(s) else marks)
  {
    hide ParamsCounted, BlocksCounted, Meant, Actual;
    FilesStep(s, p, o);
    ParamsStep(p, o, marks, KeyIdx(s));
    BlocksStep(s, o, marks);
    if o.Keyopt? {
      StaysShort(marks, MarkOf(s)[0], s.encerts);
    } else if !AllHit(marks) {
      var w :| FallsShort(marks, w, |p.closed|);
      assert FallsShort(marks, w, |Extend(p, o).value.closed|);
    }
  }

  lemma {:induction false} AlwaysCounted(opts: seq<Opt>)
    requires StepAll(opts).Some? && ExtendAll(opts).Some?
    ensures Counted(StepAll(opts).value, ExtendAll(opts).value, Marks(opts))
  {
    hide Step, Extend;
    if opts == [] {
      assert Lookup([], 0) == [];
    } else {
      hide Counted;
      var n := |opts| - 1;
      AlwaysCounted(opts[..n]);
      var marks := Marks(opts[..n]);
      assert marks + [] == marks;
      CountedStep(StepAll(opts[..n]).value, ExtendAll(opts[..n]).value, opts[n], marks);
    }
  }

  lemma HitFits(s: State, p: Pairing, o: Opt)
    requires FilesMatch(s, p) && o.Keyopt? && Extend(p, o).Some? && KeyIdx(s) == |s.keys|
    ensures KeyoptFits(s)
  {
  }

  // A -keyopt that does not fit, among options that program and user both accept, has missed.
  lemma {:induction false} MisfitIsMiss(opts: seq<Opt>)
    requires StepAll(opts).Some? && ExtendAll(opts).Some? && AllHit(Marks(opts))
    ensures KeyoptsFit(opts)
  {
    hide Step, Extend, KeyoptFits, FilesMatch, BlocksCounted, ParamsCounted, MissesAreLow, FallsShort, KeyIdx;
    if opts != [] {
      var n := |opts| - 1;
      var rest := opts[..n];
      MisfitIsMiss(rest);
      AlwaysCounted(rest);
      forall k | 0 <= k < |opts| && opts[k].Keyopt? && StepAll(opts[..k]).Some?
        ensures KeyoptFits(StepAll(opts[..k]).value)
      {
        if k < n {
          assert rest[..k] == opts[..k] && rest[k] == opts[k];
        } else {
          assert MarkOf(StepAll(rest).value)[0] in Marks(opts);
          HitFits(StepAll(rest).value, ExtendAll(rest).value, opts[n]);
        }
      }
    }
  }

  lemma ShortIsMisaligned(opts: seq<Opt>, w: int)
    requires Final(opts).Some? && Pairs(opts).Some?
    requires FallsShort(Marks(opts), w, |Pairs(opts).value| - 1)
    ensures !Aligned(opts)
  {
    hide StepAll, ExtendAll, Lookup, Meant, Actual, Marks;
    AlwaysCounted(opts);
  }

  // A program that succeeds has added the signers as the user meant them exactly if every -keyopt fits.
  lemma AlignedIfAllFit(opts: seq<Opt>)
    requires Final(opts).Some?
    ensures Aligned(opts) <==> KeyoptsFit(opts)
  {
    hide KeyoptsFit, StepAll, ExtendAll, Lookup, Meant, Actual, Marks;
    if KeyoptsFit(opts) {
      SignersAreAligned(opts);
    } else if Pairs(opts).Some? {
      AlwaysCounted(opts);
      var marks := Marks(opts);
      if AllHit(marks) {
        MisfitIsMiss(opts);
      } else {
        var w :| FallsShort(marks, w, |Pairs(opts).value| - 1);
        ShortIsMisaligned(opts, w);
      }
    }
  }

  // From the options to the signers that are added
  method AddAllSigners(opts: seq<Opt>) returns (added: Option<seq<Info>>)
    ensures KeyoptsFit(opts) && OperationAfter(opts) in {Sign, Resign} ==> added == Wanted(opts)
  {
    hide KeyoptsFit, StepAll, Pairs, Wanted;
    if KeyoptsFit(opts) {
      SignersAreAligned(opts);
      WantedIfPaired(opts);
    }
    OperationIsLast(opts);
    StacksAreLevel(opts);
    var program := new Program();
    var ok := program.ReadOptions(opts);
    if !ok || !(program.operation == Sign || program.operation == Resign) {
      return None;
    }
    ok := program.AddFinalSigner();
    if !ok {
      return None;
    }
    var infos := program.AddSigners();
    assert KeyoptsFit(opts) ==> infos == Wanted(opts).value;
    added := Some(infos);
  }

  // Whatever the options, a key is pushed for every signer.
  lemma {:induction false} StacksAreLevel(opts: seq<Opt>)
    ensures StepAll(opts).Some? ==> |StepAll(opts).value.signers| == |StepAll(opts).value.keys|
  {
    if opts != [] {
      StacksAreLevel(opts[..|opts| - 1]);
    }
  }

  lemma WantedIfPaired(opts: seq<Opt>)
    ensures Wanted(opts).Some? == Pairs(opts).Some?
  {
  }

  // ----- Options that make sense and are refused -----

  // The recipients counted so far: those that come while the operation is to encrypt
  function RecipientsAfter(opts: seq<Opt>): nat {
    if opts == [] then 0
    else
      var rest := opts[..|opts| - 1];
      RecipientsAfter(rest) + if opts[|opts| - 1].Recip? && OperationAfter(rest) == Encrypt then 1 else 0
  }

  ghost predicate LacksRecipient(opts: seq<Opt>, k: int) {
    && 0 <= k < |opts| && opts[k].Keyopt?
    && OperationAfter(opts[..k]) == Encrypt && RecipientsAfter(opts[..k]) == 0
  }

  lemma {:induction false} RecipientsAreCounted(opts: seq<Opt>)
    ensures StepAll(opts).Some? ==> StepAll(opts).value.encerts == RecipientsAfter(opts)
  {
    if opts != [] {
      RecipientsAreCounted(opts[..|opts| - 1]);
      OperationIsLast(opts[..|opts| - 1]);
    }
  }

  // Among options that make sense for the user this is the only reason to give up.
  lemma StepUnlessLacking(s: State, p: Pairing, o: Opt)
    requires FilesMatch(s, p) && Extend(p, o).Some?
    ensures Step(s, o).None? <==> o.Keyopt? && s.operation == Encrypt && s.encerts == 0
  {
  }

  lemma {:induction false} AcceptedUnlessLacking(opts: seq<Opt>)
    requires ExtendAll(opts).Some? && forall k :: !LacksRecipient(opts, k)
    ensures StepAll(opts).Some? && FilesMatch(StepAll(opts).value, ExtendAll(opts).value)
  {
    hide Step, Extend, FilesMatch, OperationAfter, RecipientsAfter;
    if opts == [] {
      InitialMatches();
      MatchesFiles(Initial(), Pairing([], NO_PAIR));
    } else {
      var n := |opts| - 1;
      forall k ensures !LacksRecipient(opts[..n], k) {
        assert 0 <= k < n ==> opts[..n][..k] == opts[..k];
        assert !LacksRecipient(opts, k);
      }
      AcceptedUnlessLacking(opts[..n]);
      var s, p := StepAll(opts[..n]).value, ExtendAll(opts[..n]).value;
      OperationIsLast(opts[..n]);
      RecipientsAreCounted(opts[..n]);
      assert !LacksRecipient(opts, n);
      StepUnlessLacking(s, p, opts[n]);
      FilesStep(s, p, opts[n]);
    }
  }

  lemma MatchesFiles(s: State, p: Pairing)
    requires Matches(s, p)
    ensures FilesMatch(s, p)
  {
  }

  lemma LackingIsRefused(opts: seq<Opt>, k: int)
    requires LacksRecipient(opts, k)
    ensures StepAll(opts).None?
  {
    hide OperationAfter, RecipientsAfter;
    OperationIsLast(opts[..k]);
    RecipientsAreCounted(opts[..k]);
    assert opts[..k + 1][..k] == opts[..k];
    NeverRecovers(opts, k + 1);
  }

  // Options that describe signers are refused exactly if some -keyopt comes while the operation is to encrypt and no
  // recipient has been counted.
  lemma RefusedIfRecipientLacks(opts: seq<Opt>)
    requires Wanted(opts).Some?
    ensures Final(opts).None? <==> exists k :: LacksRecipient(opts, k)
  {
    hide StepAll, ExtendAll, LacksRecipient;
    WantedIfPaired(opts);
    if k :| LacksRecipient(opts, k) {
      LackingIsRefused(opts, k);
    } else {
      AcceptedUnlessLacking(opts);
    }
  }

  // ----- Nothing is lost or doubled -----

  function SignersOf(pairs: seq<Pair>): seq<string> {
    if pairs == [] then []
    else
      var last := pairs[|pairs| - 1];
      SignersOf(pairs[..|pairs| - 1]) + if last.signer.Some? then [last.signer.value] else []
  }

  function KeysOf(pairs: seq<Pair>): seq<string> {
    if pairs == [] then []
    else
      var last := pairs[|pairs| - 1];
      KeysOf(pairs[..|pairs| - 1]) + if last.key.Some? then [last.key.value] else []
  }

  function ParamsOf(pairs: seq<Pair>): seq<string> {
    if pairs == [] then [] else ParamsOf(pairs[..|pairs| - 1]) + pairs[|pairs| - 1].params
  }

  // The arguments of the options of one kind, in order
  function Args(opts: seq<Opt>, kind: Opt -> Option<string>): seq<string> {
    if opts == [] then [] else Args(opts[..|opts| - 1], kind) + Given(kind(opts[|opts| - 1]))
  }

  function SignerArg(o: Opt): Option<string> {
    if o.Signer? then Some(o.file) else None
  }

  function InkeyArg(o: Opt): Option<string> {
    if o.Inkey? then Some(o.file) else None
  }

  function KeyoptArg(o: Opt): Option<string> {
    if o.Keyopt? then Some(o.param) else None
  }

  lemma OfSnoc(pairs: seq<Pair>, p: Pair)
    ensures SignersOf(pairs + [p]) == SignersOf(pairs) + if p.signer.Some? then [p.signer.value] else []
    ensures KeysOf(pairs + [p]) == KeysOf(pairs) + if p.key.Some? then [p.key.value] else []
    ensures ParamsOf(pairs + [p]) == ParamsOf(pairs) + p.params
  {
    assert (pairs + [p])[..|pairs|] == pairs;
  }

  function Given(arg: Option<string>): seq<string> {
    if arg.Some? then [arg.value] else []
  }

  lemma ExtendKeeps(p: Pairing, o: Opt)
    requires Extend(p, o).Some?
    ensures var before, q := p.closed + [p.current], Extend(p, o).value;
            var after := q.closed + [q.current];
            && SignersOf(after) == SignersOf(before) + Given(SignerArg(o))
            && KeysOf(after) == KeysOf(before) + Given(InkeyArg(o))
            && ParamsOf(after) == ParamsOf(before) + Given(KeyoptArg(o))
  {
    hide SignersOf, KeysOf, ParamsOf;
    var q := Extend(p, o).value;
    OfSnoc(p.closed, p.current);
    OfSnoc(q.closed, q.current);
  }

  // The pairs hold every signer, every key and every parameter of the options once, in the order given.
  lemma {:induction false} NothingIsLost(opts: seq<Opt>)
    requires ExtendAll(opts).Some?
    ensures var p := ExtendAll(opts).value;
            var all := p.closed + [p.current];
            && SignersOf(all) == Args(opts, SignerArg)
            && KeysOf(all) == Args(opts, InkeyArg)
            && ParamsOf(all) == Args(opts, KeyoptArg)
  {
    hide SignersOf, KeysOf, ParamsOf, Extend, SignerArg, InkeyArg, KeyoptArg;
    if opts == [] {
      OfNothing();
    } else {
      var n := |opts| - 1;
      NothingIsLost(opts[..n]);
      ExtendKeeps(ExtendAll(opts[..n]).value, opts[n]);
    }
  }

  lemma OfNothing()
    ensures SignersOf([NO_PAIR]) == [] && KeysOf([NO_PAIR]) == [] && ParamsOf([NO_PAIR]) == []
    ensures [] + [NO_PAIR] == [NO_PAIR]
  {
  }

  // ----- Parameters given while the operation is still to encrypt -----

  lemma StepAllSnoc(opts: seq<Opt>, o: Opt)
    ensures StepAll(opts + [o]) == match StepAll(opts) case None => None case Some(s) => Step(s, o)
    ensures ExtendAll(opts + [o]) == match ExtendAll(opts) case None => None case Some(p) => Extend(p, o)
  {
    assert (opts + [o])[..|opts|] == opts;
  }

  // They are numbered by recipients: here the second signer gets what was meant for the first.
  lemma KeyoptForEncryptGoesAstray(r: string, a: string, b: string, x: string)
    ensures var opts := [SetOperation(Encrypt), Recip(r), Recip(r), Signer(a), Keyopt(x),
                         SetOperation(Sign), Signer(b)];
            && Pairs(opts) == Some([Pair(Some(a), None, [x]), Pair(Some(b), None, [])])
            && Final(opts).Some? && Final(opts).value.signers == [a, b]
            && Lookup(Final(opts).value.blocks, 0) == [] && Lookup(Final(opts).value.blocks, 1) == [x]
  {
    var o1 := [SetOperation(Encrypt)];
    StepAllSnoc([], SetOperation(Encrypt));
    assert [] + [SetOperation(Encrypt)] == o1;
    StepAllSnoc(o1, Recip(r));
    var o3 := o1 + [Recip(r)] + [Recip(r)];
    StepAllSnoc(o1 + [Recip(r)], Recip(r));
    StepAllSnoc(o3, Signer(a));
    var o5 := o3 + [Signer(a)] + [Keyopt(x)];
    StepAllSnoc(o3 + [Signer(a)], Keyopt(x));
    StepAllSnoc(o5, SetOperation(Sign));
    StepAllSnoc(o5 + [SetOperation(Sign)], Signer(b));
    var opts := [SetOperation(Encrypt), Recip(r), Recip(r), Signer(a), Keyopt(x), SetOperation(Sign), Signer(b)];
    assert opts == o5 + [SetOperation(Sign)] + [Signer(b)];
    assert [] + [x] == [x];
    var first, second := Pair(Some(a), None, [x]), Pair(Some(b), None, []);
    assert ExtendAll(opts).value == Pairing([first], second);
    assert [first] + [second] == [first, second];
    assert Pairs(opts) == Some([first, second]);
  }

  // Without recipients they are refused, even if the operation becomes to sign and the signer is complete.
  lemma KeyoptForEncryptIsRefused(a: string, x: string)
    ensures var opts := [SetOperation(Encrypt), Signer(a), Keyopt(x), SetOperation(Sign)];
            Wanted(opts) == Some([Info(a, a, [x])]) && Final(opts) == None
  {
    hide Wanted, Pairs;
    var opts := [SetOperation(Encrypt), Signer(a), Keyopt(x), SetOperation(Sign)];
    var start := [SetOperation(Encrypt)] + [Signer(a)];
    var pair := Pair(Some(a), None, [x]);
    assert opts == start + [Keyopt(x)] + [SetOperation(Sign)];
    SignerWhileEncrypting(a);
    StepAllSnoc(start, Keyopt(x));
    StepAllSnoc(start + [Keyopt(x)], SetOperation(Sign));
    assert [] + [x] == [x];
    OnlyPair(opts, pair);
  }

  lemma SignerWhileEncrypting(a: string)
    ensures var start := [SetOperation(Encrypt)] + [Signer(a)];
            && StepAll(start) == Some(Initial().(operation := Encrypt, signerfile := Some(a)))
            && ExtendAll(start) == Some(Pairing([], Pair(Some(a), None, [])))
  {
    assert [] + [SetOperation(Encrypt)] == [SetOperation(Encrypt)];
    StepAllSnoc([], SetOperation(Encrypt));
    StepAllSnoc([SetOperation(Encrypt)], Signer(a));
  }

  lemma OnlyPair(opts: seq<Opt>, pair: Pair)
    requires ExtendAll(opts) == Some(Pairing([], pair)) && pair.signer.Some?
    ensures Wanted(opts) == Some([InfoOf(pair)])
  {
    hide ExtendAll;
    assert [] + [pair] == [pair];
    assert Infos([pair]) == [InfoOf(pair)];
  }
}
