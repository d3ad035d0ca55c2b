/**
 The revocation field of a row of the certificate database: time[,reason[,argument]].
 make_revocation_str writes it and unpack_revinfo reads it.
 */
module Revocation {
  import opened CStrings
  import opened Options

  // What the library accepts as a UTC time, a generalized time, an object identifier, and either form of time
  datatype Formats = Formats(
    utcTime: string -> bool, generalizedTime: string -> bool, oid: string -> bool, anyTime: string -> bool)

  const REV_CRL_REASON := 1
  const REV_HOLD := 2
  const REV_KEY_COMPROMISE := 3
  const REV_CA_COMPROMISE := 4

  const NUM_REASONS: nat := 11
  const NO_REASON := -1

  // crl_reasons
  function Reason(i: nat): string {
    match i
    case 0 => "unspecified"
    case 1 => "keyCompromise"
    case 2 => "CACompromise"
    case 3 => "affiliationChanged"
    case 4 => "superseded"
    case 5 => "cessationOfOperation"
    case 6 => "certificateHold"
    case 7 => "removeFromCRL"
    case 8 => "holdInstruction"
    case 9 => "keyTime"
    case _ => "CAkeyTime"
  }

  // The first of the reasons from i up to n that a text names, or n
  function ReasonFrom(s: string, i: nat, n: nat): (k: nat)
    requires i <= n
    ensures i <= k <= n && (k < n ==> SameText(s, Reason(k)))
    ensures forall j :: i <= j < k ==> !SameText(s, Reason(j))
    decreases n - i
  {
    if i == n || SameText(s, Reason(i)) then i else ReasonFrom(s, i + 1, n)
  }

  method FindReason(s: string, n: nat) returns (k: nat)
    ensures k == ReasonFrom(s, 0, n)
  {
    k := 0;
    while k < n
      invariant 0 <= k <= n && ReasonFrom(s, k, n) == ReasonFrom(s, 0, n)
    {
      if SameText(s, Reason(k)) {
        return;
      }
      k := k + 1;
    }
  }

  // ----- Writing -----

  datatype Parts = Invalid | Parts(reason: Option<string>, other: Option<string>)

  // What follows the time; Invalid for the arguments that are refused
  function PartsOf(revType: int, arg: string, formats: Formats): Parts {
    if revType == REV_CRL_REASON then
      var i := ReasonFrom(arg, 0, 8);
      if i == 8 then Invalid else Parts(Some(Reason(i)), None)
    else if revType == REV_HOLD then
      if formats.oid(arg) then Parts(Some("holdInstruction"), Some(arg)) else Invalid
    else if revType == REV_KEY_COMPROMISE then
      if formats.generalizedTime(arg) then Parts(Some("keyTime"), Some(arg)) else Invalid
    else if revType == REV_CA_COMPROMISE then
      if formats.generalizedTime(arg) then Parts(Some("CAkeyTime"), Some(arg)) else Invalid
    else Parts(None, None)
  }

  function Tail(part: Option<string>): string {
    match part
    case None => ""
    case Some(text) => "," + text
  }

  function Printed(now: string, parts: Parts): string
    requires parts.Parts?
  {
    now + Tail(parts.reason) + Tail(parts.other)
  }

  // make_revocation_str. The buffer is as long as the text and its terminator, and nothing of the text is lost.
  method MakeRevocationStr(revType: int, arg: string, now: string, formats: Formats) returns (str: array?<char>)
    requires NUL !in arg && NUL !in now
    ensures str == null <==> PartsOf(revType, arg, formats) == Invalid
    ensures str != null ==> fresh(str) && str[..] == Printed(now, PartsOf(revType, arg, formats)) + [NUL]
  {
    hide Reason, ReasonFrom;
    FixedReasons();
    var reason: Option<string>, other: Option<string> := None, None;
    if revType == REV_CRL_REASON {
      var i := FindReason(arg, 8);
      if i == 8 {
        return null;
      }
      reason := Some(Reason(i));
    } else if revType == REV_HOLD {
      if !formats.oid(arg) {
        return null;
      }
      reason, other := Some("holdInstruction"), Some(arg);
    } else if revType == REV_KEY_COMPROMISE || revType == REV_CA_COMPROMISE {
      if !formats.generalizedTime(arg) {
        return null;
      }
      other := Some(arg);
      reason := Some(if revType == REV_KEY_COMPROMISE then "keyTime" else "CAkeyTime");
    }
    if reason.Some? {
      ReasonIsClean(if revType == REV_CRL_REASON then ReasonFrom(arg, 0, 8) else if revType == REV_HOLD then 8
                    else if revType == REV_KEY_COMPROMISE then 9 else 10);
    }
    hide Tail;
    str := Allocate(now, reason, other);
  }

  // The buffer of exactly the length needed, and the text in it
  method Allocate(now: string, reason: Option<string>, other: Option<string>) returns (str: array<char>)
    requires NUL !in now && (reason.Some? ==> NUL !in reason.value) && (other.Some? ==> NUL !in other.value)
    ensures fresh(str) && str[..] == now + Tail(reason) + Tail(other) + [NUL]
  {
    var size := |now| + 1;
    if reason.Some? {
      size := size + |reason.value| + 1;
    }
    if other.Some? {
      size := size + |other.value| + 1;
    }
    assert size == |now + Tail(reason) + Tail(other)| + 1;
    assert NUL !in Tail(reason) && NUL !in Tail(other);
    hide Tail;
    str := new char[size];
    Strlcpy(str, 0, now, size);
    assert str[..|now| + 1] == str[0..|now| + 1];
    Append(str, reason, now);
    Append(str, other, now + Tail(reason));
    assert str[..] == str[..size];
  }

  lemma PrintedIsClean(revType: int, arg: string, now: string, formats: Formats)
    requires NUL !in arg && NUL !in now && PartsOf(revType, arg, formats) != Invalid
    ensures NUL !in Printed(now, PartsOf(revType, arg, formats))
  {
    hide Reason, ReasonFrom;
    FixedReasons();
    ReasonIsClean(if revType == REV_CRL_REASON then ReasonFrom(arg, 0, 8) else if revType == REV_HOLD then 8
                  else if revType == REV_KEY_COMPROMISE then 9 else 10);
  }

  // A field that is there goes behind its comma.
  method Append(str: array<char>, part: Option<string>, ghost have: string)
    requires |have + Tail(part)| < str.Length && NUL !in have + Tail(part) && str[..|have| + 1] == have + [NUL]
    modifies str
    ensures str[..|have + Tail(part)| + 1] == have + Tail(part) + [NUL]
  {
    if part.Some? {
      assert have + Tail(part) == have + "," + part.value;
      Strlcat(str, ",", have);
      Strlcat(str, part.value, have + ",");
    }
  }

  lemma FixedReasons()
    ensures Reason(8) == "holdInstruction" && Reason(9) == "keyTime" && Reason(10) == "CAkeyTime"
  {
  }

  lemma ReasonIsClean(i: nat)
    ensures NUL !in Reason(i) && ',' !in Reason(i)
  {
    ReasonIsLetters(i);
    hide Reason;
  }

  lemma ReasonIsLetters(i: nat)
    ensures forall k :: 0 <= k < |Reason(i)| ==> 'A' <= Reason(i)[k]
  {
    if i <= 5 {
      FirstReasonsAreLetters(i);
    } else {
      LastReasonsAreLetters(i);
    }
    hide Reason;
  }

  lemma FirstReasonsAreLetters(i: nat)
    requires i <= 5
    ensures forall k :: 0 <= k < |Reason(i)| ==> 'A' <= Reason(i)[k]
  {
  }

  lemma LastReasonsAreLetters(i: nat)
    requires i > 5
    ensures forall k :: 0 <= k < |Reason(i)| ==> 'A' <= Reason(i)[k]
  {
  }

  // ----- Reading -----

  // reason is the code of section 5.3.1 of RFC 5280, or -1; hold the instruction; compromised the invalidity time
  datatype Info = Info(time: string, reason: int, hold: Option<string>, compromised: Option<string>)

  datatype Split = Split(head: string, rest: Option<string>)

  // Cuts at the first comma
  function Cut(s: string): Split {
    if s == [] then Split([], None)
    else if s[0] == ',' then Split([], Some(s[1..]))
    else
      var r := Cut(s[1..]);
      Split([s[0]] + r.head, r.rest)
  }

  function Interpret(time: string, reason: string, arg: Option<string>, formats: Formats): Option<Info> {
    var i := ReasonFrom(reason, 0, NUM_REASONS);
    if i == NUM_REASONS then None
    else if i == 7 then Some(Info(time, 8, None, None))
    else if i == 8 then
      if arg.Some? && formats.oid(arg.value) then Some(Info(time, 6, arg, None)) else None
    else if i == 9 || i == 10 then
      if arg.Some? && formats.generalizedTime(arg.value) then Some(Info(time, i - 8, None, arg)) else None
    else Some(Info(time, i, None, None))
  }

  function Unpack(str: string, formats: Formats): Option<Info> {
    var first := Cut(str);
    if !formats.utcTime(first.head) then None
    else
      match first.rest
      case None => Some(Info(first.head, NO_REASON, None, None))
      case Some(rest) =>
        var second := Cut(rest);
        Interpret(first.head, second.head, second.rest, formats)
  }

  lemma {:induction false} CutAt(s: string, p: nat)
    requires p <= |s| && ',' !in s[..p] && (p < |s| ==> s[p] == ',')
    ensures Cut(s) == Split(s[..p], if p < |s| then Some(s[p + 1..]) else None)
  {
    if p > 0 {
      assert s[0] == s[..p][0] && s[..p][1..] == s[1..][..p - 1];
      CutAt(s[1..], p - 1);
    }
  }

  // Cuts the string s at position from of the buffer in place at its first comma; next is where the rest starts, or
  // 0 if there is no comma.
  method CutBuffer(tmp: array<char>, from: nat, ghost s: string) returns (next: nat)
    requires NUL !in s && from + |s| + 1 == tmp.Length && tmp[from..] == s + [NUL]
    modifies tmp
    ensures var cut := Cut(s);
            && from + |cut.head| < tmp.Length
            && tmp[..from] == old(tmp[..from])
            && tmp[from..from + |cut.head| + 1] == cut.head + [NUL]
            && (next == 0 <==> cut.rest == None)
            && (next != 0 ==> from + |cut.head| < next < tmp.Length && tmp[next..] == cut.rest.value + [NUL])
  {
    hide Cut;
    ghost var n := from + |s|;
    assert tmp[from..n] == s && tmp[n] == NUL;
    var p := Strchr(tmp, from, ',', n);
    assert s[..p - from] == tmp[from..p];
    CutAt(s, p - from);
    if tmp[p] == NUL {
      return 0;
    }
    tmp[p] := NUL;
    next := p + 1;
    assert tmp[from..p + 1] == tmp[from..p] + [tmp[p]];
    assert tmp[next..] == s[p + 1 - from..] + [NUL];
  }

  lemma StringInBuffer(buf: seq<char>, i: nat, s: string)
    requires i + |s| < |buf| && buf[i..i + |s| + 1] == s + [NUL] && NUL !in s
    ensures CString(buf, i) == s
  {
    assert buf[i + |s|] == buf[i..i + |s| + 1][|s|];
    assert buf[i..i + |s|] == buf[i..i + |s| + 1][..|s|] == s;
    CStringIs(buf, i, |s|);
  }

  lemma {:induction false} CutIsClean(s: string)
    requires NUL !in s
    ensures NUL !in Cut(s).head && (Cut(s).rest.Some? ==> NUL !in Cut(s).rest.value)
  {
    if s != [] && s[0] != ',' {
      CutIsClean(s[1..]);
    }
  }

  // The positions of the reason and of the argument, 0 for one that is not there
  method CutFields(str: string, tmp: array<char>) returns (reasonStr: nat, argStr: nat)
    requires NUL !in str && tmp[..] == str + [NUL]
    modifies tmp
    ensures reasonStr < tmp.Length && argStr < tmp.Length
    ensures CString(tmp[..], 0) == Cut(str).head
    ensures reasonStr == 0 <==> Cut(str).rest == None
    ensures reasonStr != 0 ==> var second := Cut(Cut(str).rest.value);
                               && CString(tmp[..], reasonStr) == second.head
                               && (argStr == 0 <==> second.rest == None)
                               && (argStr != 0 ==> CString(tmp[..], argStr) == second.rest.value)
  {
    hide Cut, CString;
    argStr := 0;
    CutIsClean(str);
    ghost var first := Cut(str).head;
    reasonStr := CutBuffer(tmp, 0, str);
    if reasonStr != 0 {
      ghost var rest := Cut(str).rest.value;
      ghost var head := tmp[..|first| + 1];
      CutIsClean(rest);
      argStr := CutBuffer(tmp, reasonStr, rest);
      assert tmp[..|first| + 1] == tmp[..reasonStr][..|first| + 1] == head;
      StringInBuffer(tmp[..], reasonStr, Cut(rest).head);
      if argStr != 0 {
        StringInBuffer(tmp[..], argStr, Cut(rest).rest.value);
      }
    }
    StringInBuffer(tmp[..], 0, first);
  }

  // unpack_revinfo
  method UnpackRevinfo(str: string, formats: Formats) returns (info: Option<Info>)
    requires NUL !in str
    ensures info == Unpack(str, formats)
  {
    hide Cut, CString, ReasonFrom;
    var tmp := new char[|str| + 1];
    Strlcpy(tmp, 0, str, |str| + 1);
    assert tmp[..] == tmp[0..|str| + 1];
    var reasonStr, argStr := CutFields(str, tmp);
    var time := CString(tmp[..], 0);
    if !formats.utcTime(time) {
      return None;
    }
    if reasonStr == 0 {
      return Some(Info(time, NO_REASON, None, None));
    }
    var i := FindReason(CString(tmp[..], reasonStr), NUM_REASONS);
    if i == NUM_REASONS {
      return None;
    }
    var hold: Option<string>, compromised: Option<string> := None, None;
    var code := i;
    if i == 7 {
      code := 8;
    } else if i == 8 {
      if argStr == 0 || !formats.oid(CString(tmp[..], argStr)) {
        return None;
      }
      code := 6;
      hold := Some(CString(tmp[..], argStr));
    } else if i == 9 || i == 10 {
      if argStr == 0 || !formats.generalizedTime(CString(tmp[..], argStr)) {
        return None;
      }
      compromised := Some(CString(tmp[..], argStr));
      code := if i == 9 then 1 else 2;
    }
    info := Some(Info(time, code, hold, compromised));
  }

  // ----- The round trip -----

  // The reason codes of section 5.3.1 of RFC 5280
  function CodeOfReason(name: string): int {
    if SameText(name, "unspecified") then 0
    else if SameText(name, "keyCompromise") then 1
    else if SameText(name, "cACompromise") then 2
    else if SameText(name, "affiliationChanged") then 3
    else if SameText(name, "superseded") then 4
    else if SameText(name, "cessationOfOperation") then 5
    else if SameText(name, "certificateHold") then 6
    else if SameText(name, "removeFromCRL") then 8
    else NO_REASON
  }

  // What the caller of make_revocation_str asked for
  predicate ValidArgument(revType: int, arg: string, formats: Formats) {
    && (revType == REV_CRL_REASON ==> CodeOfReason(arg) != NO_REASON)
    && (revType == REV_HOLD ==> formats.oid(arg))
    && (revType in {REV_KEY_COMPROMISE, REV_CA_COMPROMISE} ==> formats.generalizedTime(arg))
  }

  function Meant(revType: int, arg: string, now: string): Info {
    match revType
    case 1 => Info(now, CodeOfReason(arg), None, None)
    case 2 => Info(now, 6, Some(arg), None)
    case 3 => Info(now, 1, None, Some(arg))
    case 4 => Info(now, 2, None, Some(arg))
    case _ => Info(now, NO_REASON, None, None)
  }

  lemma SameTextIsTransitive(a: string, b: string, c: string)
    requires SameText(a, b) && SameText(c, b)
    ensures SameText(a, c)
  {
    forall i | 0 <= i < |a| ensures Lower(a[i]) == Lower(c[i]) {
      assert Lower(a[i]) == Lower(b[i]);
      assert Lower(c[i]) == Lower(b[i]);
    }
  }

  lemma ReasonsDiffer(i: nat, k: nat)
    requires i < NUM_REASONS && k < NUM_REASONS && i != k
    ensures !SameText(Reason(i), Reason(k))
  {
    if |Reason(i)| == |Reason(k)| {
      assert Lower(Reason(i)[0]) != Lower(Reason(k)[0]);
    }
  }

  // A reason is found at its own place, and only texts that agree with it but for case are.
  lemma ReasonIsFound(s: string, i: nat, n: nat)
    requires i < n <= NUM_REASONS
    ensures SameText(s, Reason(i)) <==> ReasonFrom(s, 0, n) == i
  {
    var k := ReasonFrom(s, 0, n);
    if SameText(s, Reason(i)) && k != i {
      assert k < i;
      SameTextIsTransitive(Reason(i), s, Reason(k)) by {
        assert SameText(Reason(i), s) && SameText(Reason(k), s);
      }
      ReasonsDiffer(i, k);
      assert false;
    }
  }

  lemma CodeIsIndex(name: string)
    ensures var i := ReasonFrom(name, 0, 8); CodeOfReason(name) == if i == 8 then NO_REASON else if i == 7 then 8 else i
  {
    hide SameText;
    forall i: nat | i < 8 ensures SameText(name, Reason(i)) <==> ReasonFrom(name, 0, 8) == i {
      ReasonIsFound(name, i, 8);
    }
    SpellingOfCaCompromise(name);
    var i := ReasonFrom(name, 0, 8);
    assert i == 8 ==> forall k: nat :: k < 8 ==> !SameText(name, Reason(k));
    assert Reason(0) == "unspecified" && Reason(1) == "keyCompromise" && Reason(2) == "CACompromise";
    assert Reason(3) == "affiliationChanged" && Reason(4) == "superseded" && Reason(5) == "cessationOfOperation";
    assert Reason(6) == "certificateHold" && Reason(7) == "removeFromCRL";
  }

  lemma SpellingOfCaCompromise(name: string)
    ensures SameText(name, "cACompromise") <==> SameText(name, "CACompromise")
  {
    var a, b := "cACompromise", "CACompromise";
    assert forall i :: 0 <= i < 12 ==> Lower(a[i]) == Lower(b[i]);
  }

  lemma CutPrinted(head: string, part: Option<string>, rest: string)
    requires ',' !in head && (part.None? ==> rest == "")
    ensures Cut(head + Tail(part) + rest) == Split(head, if part.None? then None else Some(part.value + rest))
  {
    hide Cut;
    if part.Some? {
      Regroup(head, part.value, rest);
      CutAtComma(head, part.value + rest);
    } else {
      assert head + Tail(part) + rest == head;
      CutAt(head, |head|);
      assert head[..|head|] == head;
    }
  }

  lemma Regroup(head: string, text: string, rest: string)
    ensures head + Tail(Some(text)) + rest == head + "," + (text + rest)
  {
  }

  lemma CutAtComma(head: string, rest: string)
    requires ',' !in head
    ensures Cut(head + "," + rest) == Split(head, Some(rest))
  {
    var s := head + "," + rest;
    assert s[..|head|] == head && s[|head|] == ',' && s[|head| + 1..] == rest;
    CutAt(s, |head|);
  }

  // Reading back what was written recovers the time, the reason and the argument, and writing is refused exactly
  // for arguments that are not valid.
  lemma UnpackOfPrinted(revType: int, arg: string, now: string, formats: Formats)
    requires formats.utcTime(now) && ',' !in now
    ensures var parts := PartsOf(revType, arg, formats);
            && (parts != Invalid <==> ValidArgument(revType, arg, formats))
            && (parts != Invalid ==> Unpack(Printed(now, parts), formats) == Some(Meant(revType, arg, now)))
  {
    hide SameText, CodeOfReason, Reason, Cut;
    CodeIsIndex(arg);
    var parts := PartsOf(revType, arg, formats);
    if parts != Invalid {
      CutPrinted(now, parts.reason, Tail(parts.other));
      if parts.reason.Some? {
        CutReason(revType, arg, parts, formats);
        assert parts.reason.value + Tail(parts.other) == parts.reason.value + Tail(parts.other) + "";
        CutPrinted(parts.reason.value, parts.other, "");
        if parts.other.Some? {
          assert parts.other.value + "" == parts.other.value;
        }
      }
    }
  }

  // The reason that is written stands at its own place among all the reasons.
  lemma CutReason(revType: int, arg: string, parts: Parts, formats: Formats)
    requires parts == PartsOf(revType, arg, formats) && parts.Parts? && parts.reason.Some?
    ensures ',' !in parts.reason.value
    ensures ReasonFrom(parts.reason.value, 0, NUM_REASONS)
         == match revType
            case 1 => ReasonFrom(arg, 0, 8)
            case 2 => 8
            case 3 => 9
            case _ => 10
  {
    hide ReasonFrom;
    var i := if revType == 1 then ReasonFrom(arg, 0, 8) else if revType == 2 then 8 else if revType == 3 then 9 else 10;
    FixedReasons();
    ReasonIsClean(i);
    assert parts.reason.value == Reason(i);
    assert SameText(Reason(i), Reason(i));
    ReasonIsFound(Reason(i), i, NUM_REASONS);
  }

  // The text of a field: the time, and after commas the name of the reason and the argument
  lemma FieldIsWritten(revType: int, arg: string, now: string, formats: Formats)
    requires ValidArgument(revType, arg, formats)
    ensures PartsOf(revType, arg, formats) != Invalid
    ensures var text := Printed(now, PartsOf(revType, arg, formats));
            match revType
            case 1 => exists name :: SameText(arg, name) && text == now + "," + name
            case 2 => text == now + ",holdInstruction," + arg
            case 3 => text == now + ",keyTime," + arg
            case 4 => text == now + ",CAkeyTime," + arg
            case _ => text == now
  {
    hide SameText, CodeOfReason, Reason;
    CodeIsIndex(arg);
    match revType
    case 1 =>
      var name := Reason(ReasonFrom(arg, 0, 8));
      assert Printed(now, PartsOf(revType, arg, formats)) == now + "," + name;
    case 2 => assert now + ("," + "holdInstruction") + ("," + arg) == now + ",holdInstruction," + arg;
    case 3 => assert now + ("," + "keyTime") + ("," + arg) == now + ",keyTime," + arg;
    case 4 => assert now + ("," + "CAkeyTime") + ("," + arg) == now + ",CAkeyTime," + arg;
    case _ =>
  }

  // ----- Every field -----

  // What a field says, by the names of its reasons; None for a time, reason or argument that is refused
  function FieldMeant(time: string, reason: Option<string>, arg: Option<string>, formats: Formats): Option<Info> {
    if !formats.utcTime(time) then None
    else if reason.None? then Some(Info(time, NO_REASON, None, None))
    else if CodeOfReason(reason.value) != NO_REASON then Some(Info(time, CodeOfReason(reason.value), None, None))
    else if SameText(reason.value, "holdInstruction") then
      if arg.Some? && formats.oid(arg.value) then Some(Info(time, 6, arg, None)) else None
    else if SameText(reason.value, "keyTime") then
      if arg.Some? && formats.generalizedTime(arg.value) then Some(Info(time, 1, None, arg)) else None
    else if SameText(reason.value, "CAkeyTime") then
      if arg.Some? && formats.generalizedTime(arg.value) then Some(Info(time, 2, None, arg)) else None
    else None
  }

  // Any text is a time, perhaps a reason, and perhaps an argument, with commas between them; this is how it is read.
  lemma FieldIsRead(time: string, reason: Option<string>, arg: Option<string>, formats: Formats)
    requires ',' !in time && (reason.Some? ==> ',' !in reason.value) && (arg.Some? ==> reason.Some?)
    ensures Unpack(time + Tail(reason) + Tail(arg), formats) == FieldMeant(time, reason, arg, formats)
  {
    hide Cut, Tail, SameText, CodeOfReason, Reason;
    CutPrinted(time, reason, Tail(arg)) by {
      assert reason.None? ==> Tail(arg) == "" by { NoTail(); }
    }
    if reason.Some? {
      NoTail();
      assert reason.value + Tail(arg) == reason.value + Tail(arg) + "";
      CutPrinted(reason.value, arg, "");
      if arg.Some? {
        assert arg.value + "" == arg.value;
      }
      if formats.utcTime(time) {
        ReasonIsInterpreted(time, reason.value, arg, formats);
      }
    }
  }

  lemma NoTail()
    ensures Tail(None) == ""
  {
  }

  lemma ReasonIsInterpreted(time: string, reason: string, arg: Option<string>, formats: Formats)
    requires formats.utcTime(time)
    ensures Interpret(time, reason, arg, formats) == FieldMeant(time, Some(reason), arg, formats)
  {
    hide SameText, CodeOfReason, Reason, ReasonFrom;
    FixedReasons();
    CodeIsIndex(reason);
    FirstEightOrLater(reason);
    ReasonIsFound(reason, 8, NUM_REASONS);
    ReasonIsFound(reason, 9, NUM_REASONS);
    ReasonIsFound(reason, 10, NUM_REASONS);
  }

  // The first eight reasons are found among all reasons where they are found among themselves.
  lemma FirstEightOrLater(s: string)
    ensures var i, k := ReasonFrom(s, 0, 8), ReasonFrom(s, 0, NUM_REASONS);
            if i < 8 then k == i else 8 <= k <= NUM_REASONS
  {
    hide SameText, Reason;
    var i, k := ReasonFrom(s, 0, 8), ReasonFrom(s, 0, NUM_REASONS);
    if i < 8 {
      ReasonIsFound(s, i, NUM_REASONS);
    } else {
      assert forall j :: 0 <= j < 8 ==> !SameText(s, Reason(j));
    }
  }
}
