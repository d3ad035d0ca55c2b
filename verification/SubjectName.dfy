/**
 parse_name: a subject given as /type0=value0/type1=value1... with backslash escapes, where a plus sign instead
 of a slash joins an attribute to the one before it.
 */
module SubjectName {
  import opened CStrings
  import opened Options

  // An attribute of a name; multi: it belongs to the same relative name as the one before it
  datatype Attribute = Attribute(typ: string, value: string, multi: bool)

  // What the name library makes of a type, and of an attribute: known types, and values it takes
  datatype Library = Library(known: string -> bool, takes: (string, string) -> bool)

  // The outcome of scanning a value: its characters, what follows, and whether it ended at a plus sign
  datatype Scanned = Broken | Value(text: string, rest: string, plus: bool)

  function ScanValue(s: string, canMulti: bool): Scanned {
    if s == [] then Value([], [], false)
    else if s[0] == '/' then Value([], s[1..], false)
    else if canMulti && s[0] == '+' then Value([], s[1..], true)
    else if s[0] == '\\' then
      if |s| == 1 then Broken
      else
        match ScanValue(s[2..], canMulti)
        case Broken => Broken
        case Value(text, rest, plus) => Value([s[1]] + text, rest, plus)
    else
      match ScanValue(s[1..], canMulti)
      case Broken => Broken
      case Value(text, rest, plus) => Value([s[0]] + text, rest, plus)
  }

  // The position of the first equals sign, or the length if there is none
  function FindEquals(s: string): (k: nat)
    ensures k <= |s| && (k < |s| ==> s[k] == '=') && forall i :: 0 <= i < k ==> s[i] != '='
  {
    if s == [] || s[0] == '=' then 0 else 1 + FindEquals(s[1..])
  }

  lemma {:induction false} ScanConsumes(s: string, canMulti: bool)
    ensures var r := ScanValue(s, canMulti);
            r.Value? ==> |r.text| + |r.rest| <= |s| && (r.rest != [] ==> |r.text| + |r.rest| < |s|)
    decreases |s|
  {
    if s != [] && s[0] != '/' && !(canMulti && s[0] == '+') {
      if s[0] != '\\' {
        ScanConsumes(s[1..], canMulti);
      } else if |s| > 1 {
        ScanConsumes(s[2..], canMulti);
      }
    }
  }

  // The attributes of the string that follows the leading slash; unknown types are skipped.
  function ParseAttributes(s: string, canMulti: bool, multi: bool, lib: Library): Option<seq<Attribute>>
    decreases |s|
  {
    if s == [] then Some([]) else
    var k := FindEquals(s);
    if k == |s| then None else
    match ScanValue(s[k + 1..], canMulti)
    case Broken => None
    case Value(text, rest, plus) =>
      ScanConsumes(s[k + 1..], canMulti);
      AddAttribute(Attribute(s[..k], text, multi), ParseAttributes(rest, canMulti, plus, lib), lib)
  }

  // An attribute in front of those after it: skipped if unknown, fatal if the library does not take it
  function AddAttribute(a: Attribute, rest: Option<seq<Attribute>>, lib: Library): Option<seq<Attribute>> {
    if !lib.known(a.typ) then rest
    else if !lib.takes(a.typ, a.value) || rest == None then None
    else Some([a] + rest.value)
  }

  function ParseName(s: string, canMulti: bool, lib: Library): Option<seq<Attribute>> {
    if s == [] || s[0] != '/' then None else ParseAttributes(s[1..], canMulti, false, lib)
  }

  // ----- printing -----

  function Escape(s: string): string {
    if s == [] then []
    else EscapeChar(s[0]) + Escape(s[1..])
  }

  function EscapeChar(c: char): string {
    if c == '/' || c == '+' || c == '\\' then ['\\', c] else [c]
  }

  function Print(attrs: seq<Attribute>): string {
    if attrs == [] then []
    else attrs[0].typ + ['='] + Escape(attrs[0].value) + Separator(attrs[1..]) + Print(attrs[1..])
  }

  function Separator(rest: seq<Attribute>): string {
    if rest == [] then [] else if rest[0].multi then ['+'] else ['/']
  }

  // A character that cannot stand in a value by itself
  predicate Ends(c: char, canMulti: bool) {
    c == '/' || c == '\\' || (c == '+' && canMulti)
  }

  // The text writes the value: any character may have a backslash before it, and some have to.
  predicate Writes(text: string, v: string, canMulti: bool) {
    if text == [] then v == []
    else if text[0] == '\\' then |text| > 1 && v != [] && text[1] == v[0] && Writes(text[2..], v[1..], canMulti)
    else !Ends(text[0], canMulti) && v != [] && text[0] == v[0] && Writes(text[1..], v[1..], canMulti)
  }

  // Attributes with their values as they are written
  function Written(attrs: seq<Attribute>, texts: seq<string>): string
    requires |texts| == |attrs|
  {
    if attrs == [] then []
    else attrs[0].typ + ['='] + texts[0] + Separator(attrs[1..]) + Written(attrs[1..], texts[1..])
  }

  predicate WellWritten(attrs: seq<Attribute>, texts: seq<string>, canMulti: bool) {
    && |texts| == |attrs|
    && forall i :: 0 <= i < |attrs| ==>
         '=' !in attrs[i].typ && (attrs[i].multi ==> canMulti) && Writes(texts[i], attrs[i].value, canMulti)
  }

  // The library takes every attribute whose type it knows.
  predicate AllTaken(attrs: seq<Attribute>, lib: Library) {
    forall a :: a in attrs && lib.known(a.typ) ==> lib.takes(a.typ, a.value)
  }

  predicate Printable(attrs: seq<Attribute>, canMulti: bool, lib: Library) {
    (forall a :: a in attrs ==> '=' !in a.typ && (a.multi ==> canMulti)) && AllTaken(attrs, lib)
  }

  function Known(attrs: seq<Attribute>, lib: Library): seq<Attribute> {
    if attrs == [] then []
    else (if lib.known(attrs[0].typ) then [attrs[0]] else []) + Known(attrs[1..], lib)
  }

  // A written value is scanned back, up to the separator after it.
  lemma {:induction false} ScanOfWritten(text: string, v: string, sep: string, rest: string, canMulti: bool)
    requires Writes(text, v, canMulti) && ((sep == [] && rest == []) || sep == ['/'] || (sep == ['+'] && canMulti))
    ensures ScanValue(text + sep + rest, canMulti) == Value(v, rest, sep == ['+'])
  {
    var s := text + sep + rest;
    if text == [] {
      assert s == sep + rest;
      assert sep != [] ==> s[1..] == rest;
    } else {
      var k := if text[0] == '\\' then 2 else 1;
      assert s[k..] == text[k..] + sep + rest;
      ScanOfWritten(text[k..], v[1..], sep, rest, canMulti);
      assert [v[0]] + v[1..] == v;
    }
  }

  // A backslash with nothing after it is the one thing that breaks a value.
  lemma {:induction false} ScanIsExact(s: string, canMulti: bool) returns (text: string, v: string, sep: string)
    ensures Writes(text, v, canMulti)
    ensures match ScanValue(s, canMulti)
            case Broken => s == text + ['\\']
            case Value(value, rest, plus) =>
              && s == text + sep + rest && v == value && (plus <==> sep == ['+'])
              && ((sep == [] && rest == []) || sep == ['/'] || (sep == ['+'] && canMulti))
    decreases |s|
  {
    if s == [] {
      text, v, sep := [], [], [];
    } else if s[0] == '/' || (canMulti && s[0] == '+') {
      text, v, sep := [], [], [s[0]];
      assert s == [s[0]] + s[1..];
    } else if s == ['\\'] {
      text, v, sep := [], [], [];
      assert text + ['\\'] == s;
    } else {
      var k := if s[0] == '\\' then 2 else 1;
      var text', v';
      text', v', sep := ScanIsExact(s[k..], canMulti);
      text, v := s[..k] + text', [s[k - 1]] + v';
      WritesOneMore(s[..k], s[k - 1], text', v', canMulti);
      ScanTakesOne(s, k, canMulti);
      hide ScanValue, Writes;
      assert s == s[..k] + s[k..];
      Regroup(s[..k], text', sep, match ScanValue(s[k..], canMulti) case Broken => [] case Value(_, rest, _) => rest);
      assert text + ['\\'] == s[..k] + (text' + ['\\']);
    }
  }

  lemma WritesOneMore(first: string, c: char, text: string, v: string, canMulti: bool)
    requires Writes(text, v, canMulti) && (first == ['\\', c] || (first == [c] && !Ends(c, canMulti)))
    ensures Writes(first + text, [c] + v, canMulti)
  {
    assert (first + text)[|first|..] == text && ([c] + v)[1..] == v;
  }

  lemma ScanTakesOne(s: string, k: nat, canMulti: bool)
    requires s != [] && !(s[0] == '/' || (canMulti && s[0] == '+')) && s != ['\\']
    requires k == if s[0] == '\\' then 2 else 1
    ensures ScanValue(s, canMulti)
         == match ScanValue(s[k..], canMulti)
            case Broken => Broken
            case Value(text, rest, plus) => Value([s[k - 1]] + text, rest, plus)
  {
  }

  lemma Regroup(a: string, b: string, c: string, d: string)
    ensures (a + b) + c + d == a + (b + c + d)
  {
  }

  lemma {:induction false} EscapeWrites(v: string, canMulti: bool)
    ensures Writes(Escape(v), v, canMulti)
  {
    if v != [] {
      EscapeWrites(v[1..], canMulti);
      var e := EscapeChar(v[0]);
      assert Escape(v) == e + Escape(v[1..]);
      assert Escape(v)[|e|..] == Escape(v[1..]);
    }
  }

  lemma {:induction false} FindEqualsAfter(t: string, rest: string)
    requires '=' !in t
    ensures FindEquals(t + ['='] + rest) == |t|
  {
    if t != [] {
      assert (t + ['='] + rest)[1..] == t[1..] + ['='] + rest;
      FindEqualsAfter(t[1..], rest);
    }
  }

  // One written attribute, whatever follows it
  lemma ParseOfOne(a: Attribute, text: string, sep: string, rest: string, multi: bool, canMulti: bool, lib: Library)
    requires '=' !in a.typ && Writes(text, a.value, canMulti)
    requires (sep == [] && rest == []) || sep == ['/'] || (sep == ['+'] && canMulti)
    ensures ParseAttributes(a.typ + ['='] + text + sep + rest, canMulti, multi, lib)
         == AddAttribute(a.(multi := multi), ParseAttributes(rest, canMulti, sep == ['+'], lib), lib)
  {
    hide FindEquals, ScanValue, Writes, AddAttribute;
    var tail := text + sep + rest;
    var s := a.typ + ['='] + text + sep + rest;
    assert s == a.typ + ['='] + tail;
    FindEqualsAfter(a.typ, tail);
    assert s[|a.typ| + 1..] == tail && s[..|a.typ|] == a.typ;
    ScanOfWritten(text, a.value, sep, rest, canMulti);
  }

  // What is made of attributes: those of known types, unless the library does not take one of them
  function Taken(attrs: seq<Attribute>, lib: Library): Option<seq<Attribute>> {
    if AllTaken(attrs, lib) then Some(Known(attrs, lib)) else None
  }

  lemma TakenStep(attrs: seq<Attribute>, lib: Library)
    requires attrs != []
    ensures AddAttribute(attrs[0], Taken(attrs[1..], lib), lib) == Taken(attrs, lib)
  {
    assert [] + Known(attrs[1..], lib) == Known(attrs[1..], lib);
    assert attrs == [attrs[0]] + attrs[1..];
  }

  lemma {:induction false} ParseOfAttributes(attrs: seq<Attribute>, texts: seq<string>, canMulti: bool, lib: Library)
    requires WellWritten(attrs, texts, canMulti)
    ensures ParseAttributes(Written(attrs, texts), canMulti, attrs != [] && attrs[0].multi, lib) == Taken(attrs, lib)
  {
    if attrs == [] {
      assert ParseAttributes([], canMulti, false, lib) == Some([]);
    } else {
      var a, rest := attrs[0], attrs[1..];
      assert rest == [] ==> Separator(rest) == [] && Written(rest, texts[1..]) == [];
      assert Separator(rest) == ['+'] <==> rest != [] && rest[0].multi;
      assert rest != [] ==> rest[0] == attrs[1];
      assert Writes(texts[0], a.value, canMulti) && '=' !in a.typ;
      hide ParseAttributes, Writes, Known, AddAttribute, AllTaken, Separator, Taken;
      ParseOfAttributes(rest, texts[1..], canMulti, lib);
      ParseOfOne(a, texts[0], Separator(rest), Written(rest, texts[1..]), a.multi, canMulti, lib);
      TakenStep(attrs, lib);
      assert a.(multi := a.multi) == a;
    }
  }

  /**
   The attributes of a name are read as they were written, with or without backslashes before ordinary characters:
   the known ones come back in order with their types, values and flags, or nothing if the library does not take one
   of them. The first attribute cannot belong to one before it.
   */
  lemma ParseOfWritten(attrs: seq<Attribute>, texts: seq<string>, canMulti: bool, lib: Library)
    requires WellWritten(attrs, texts, canMulti) && (attrs != [] ==> !attrs[0].multi)
    ensures ParseName(['/'] + Written(attrs, texts), canMulti, lib) == Taken(attrs, lib)
  {
    ParseOfAttributes(attrs, texts, canMulti, lib);
    assert (['/'] + Written(attrs, texts))[1..] == Written(attrs, texts);
  }

  function Escapes(attrs: seq<Attribute>): (texts: seq<string>)
    ensures |texts| == |attrs| && forall i :: 0 <= i < |attrs| ==> texts[i] == Escape(attrs[i].value)
  {
    seq(|attrs|, i requires 0 <= i < |attrs| => Escape(attrs[i].value))
  }

  lemma {:induction false} PrintIsWritten(attrs: seq<Attribute>)
    ensures Print(attrs) == Written(attrs, Escapes(attrs))
  {
    hide Escape;
    if attrs != [] {
      PrintIsWritten(attrs[1..]);
      assert Escapes(attrs)[1..] == Escapes(attrs[1..]);
    }
  }

  // Parsing undoes printing.
  lemma ParseOfPrint(attrs: seq<Attribute>, canMulti: bool, lib: Library)
    requires Printable(attrs, canMulti, lib) && (attrs != [] ==> !attrs[0].multi)
    ensures ParseName(['/'] + Print(attrs), canMulti, lib) == Some(Known(attrs, lib))
  {
    hide Writes, Escape, ParseName, Known, Written, Print, AllTaken;
    forall i | 0 <= i < |attrs|
      ensures '=' !in attrs[i].typ && (attrs[i].multi ==> canMulti)
      ensures Writes(Escapes(attrs)[i], attrs[i].value, canMulti)
    {
      assert attrs[i] in attrs;
      EscapeWrites(attrs[i].value, canMulti);
    }
    PrintIsWritten(attrs);
    ParseOfWritten(attrs, Escapes(attrs), canMulti, lib);
  }

  // ----- texts that are refused -----

  // A name starts with a slash.
  lemma SlashIsDemanded(s: string, canMulti: bool, lib: Library)
    requires s == [] || s[0] != '/'
    ensures ParseName(s, canMulti, lib) == None
  {
  }

  // A type without an equals sign, or a backslash at the end, after attributes that are well written, is refused.
  lemma {:induction false} BrokenEndIsRefused(attrs: seq<Attribute>, texts: seq<string>, sep: string, end: string,
                                              canMulti: bool, multi: bool, lib: Library)
    requires WellWritten(attrs, texts, canMulti) && IsBroken(end, canMulti)
    requires if attrs == [] then sep == [] else sep == ['/'] || (sep == ['+'] && canMulti)
    ensures ParseAttributes(Written(attrs, texts) + sep + end, canMulti, multi, lib) == None
  {
    if attrs == [] {
      assert Written(attrs, texts) + sep + end == end;
      EndIsRefused(end, canMulti, multi, lib);
    } else {
      var a, rest := attrs[0], attrs[1..];
      var sep' := if rest == [] then sep else Separator(rest);
      var tail := Written(rest, texts[1..]) + (if rest == [] then [] else sep) + end;
      assert rest != [] ==> rest[0] == attrs[1];
      assert Writes(texts[0], a.value, canMulti) && '=' !in a.typ;
      assert Written(attrs, texts) + sep + end == a.typ + ['='] + texts[0] + sep' + tail;
      WellWrittenRest(attrs, texts, canMulti);
      hide ParseAttributes, Writes, Separator, Written, IsBroken, WellWritten;
      BrokenEndIsRefused(rest, texts[1..], if rest == [] then [] else sep, end, canMulti, sep' == ['+'], lib);
      ParseOfOne(a, texts[0], sep', tail, multi, canMulti, lib);
      assert AddAttribute(a.(multi := multi), None, lib) == None || !lib.known(a.typ);
    }
  }

  lemma WellWrittenRest(attrs: seq<Attribute>, texts: seq<string>, canMulti: bool)
    requires WellWritten(attrs, texts, canMulti) && attrs != []
    ensures WellWritten(attrs[1..], texts[1..], canMulti)
    ensures attrs[1..] != [] ==> Separator(attrs[1..]) == ['/'] || (Separator(attrs[1..]) == ['+'] && canMulti)
  {
    hide Writes;
    assert |attrs| > 1 ==> attrs[1..][0] == attrs[1];
  }

  ghost predicate IsBroken(end: string, canMulti: bool) {
    || (end != [] && '=' !in end)
    || exists typ, text, v :: '=' !in typ && Writes(text, v, canMulti) && end == typ + ['='] + text + ['\\']
  }

  lemma EndIsRefused(end: string, canMulti: bool, multi: bool, lib: Library)
    requires IsBroken(end, canMulti)
    ensures ParseAttributes(end, canMulti, multi, lib) == None
  {
    hide Writes, AddAttribute;
    if end != [] && '=' !in end {
      assert FindEquals(end) == |end|;
    } else {
      var typ, text, v :| '=' !in typ && Writes(text, v, canMulti) && end == typ + ['='] + text + ['\\'];
      var tail := text + ['\\'];
      assert end == typ + ['='] + tail;
      FindEqualsAfter(typ, tail);
      assert end[|typ| + 1..] == tail;
      ScanOfLoneBackslash(text, v, canMulti);
    }
  }

  lemma {:induction false} ScanOfLoneBackslash(text: string, v: string, canMulti: bool)
    requires Writes(text, v, canMulti)
    ensures ScanValue(text + ['\\'], canMulti) == Broken
  {
    if text == [] {
      assert text + ['\\'] == ['\\'];
    } else {
      var k := if text[0] == '\\' then 2 else 1;
      assert (text + ['\\'])[k..] == text[k..] + ['\\'];
      ScanOfLoneBackslash(text[k..], v[1..], canMulti);
    }
  }

  // ----- the parser at work in its buffer -----

  // Attributes already found in front of those still to come
  function Prepend(done: seq<Attribute>, rest: Option<seq<Attribute>>): Option<seq<Attribute>> {
    if rest == None then None else Some(done + rest.value)
  }

  lemma PrependNothing(rest: Option<seq<Attribute>>)
    ensures Prepend([], rest) == rest
  {
    if rest.Some? {
      assert [] + rest.value == rest.value;
    }
  }

  lemma PrependOne(done: seq<Attribute>, a: Attribute, rest: Option<seq<Attribute>>, lib: Library)
    ensures Prepend(done, AddAttribute(a, rest, lib))
         == if !lib.known(a.typ) then Prepend(done, rest)
            else if lib.takes(a.typ, a.value) then Prepend(done + [a], rest) else None
  {
    if rest.Some? {
      assert done + ([a] + rest.value) == (done + [a]) + rest.value;
    }
  }

  // What one round of the parser reads from the string
  lemma ParseRound(s: string, start: nat, canMulti: bool, multi: bool, lib: Library)
    requires start < |s|
    ensures var k, r := FindEquals(s[start..]), ParseAttributes(s[start..], canMulti, multi, lib);
            if start + k == |s| then r == None
            else match ScanValue(s[start + k + 1..], canMulti)
                 case Broken => r == None
                 case Value(text, rest, plus) =>
                   r == AddAttribute(Attribute(s[start..start + k], text, multi),
                                     ParseAttributes(rest, canMulti, plus, lib), lib)
  {
    hide FindEquals, ScanValue, AddAttribute;
    var t, k := s[start..], FindEquals(s[start..]);
    assert t[..k] == s[start..start + k];
    if k < |t| {
      assert t[k + 1..] == s[start + k + 1..];
    }
  }

  // Collects a type into the buffer, up to its equals sign.
  method CollectType(s: string, start: nat, work: array<char>) returns (cp: nat, bp: nat)
    requires 1 <= start <= |s| == work.Length
    modifies work
    ensures cp == start + FindEquals(s[start..]) && bp == cp - start
    ensures work[..bp] == s[start..cp]
  {
    cp, bp := start, 0;
    while cp < |s| && s[cp] != '='
      invariant start <= cp <= |s| && bp == cp - start
      invariant work[..bp] == s[start..cp]
      invariant start + FindEquals(s[start..]) == cp + FindEquals(s[cp..])
    {
      work[bp] := s[cp];
      assert s[cp..][1..] == s[cp + 1..];
      bp, cp := bp + 1, cp + 1;
    }
    if cp < |s| {
      assert s[cp..][0] == '=';
    }
  }

  // The text already collected in front of the scan of what follows
  function Continue(text: string, rest: Scanned): Scanned {
    match rest
    case Broken => Broken
    case Value(more, after, plus) => Value(text + more, after, plus)
  }

  /**
   Collects a value into the buffer from position valstr, undoing escapes; ok: no escape at the end of the string.
   The buffer is never written past what has been read of the string.
   */
  method CollectValue(s: string, ghost start: nat, from: nat, work: array<char>, valstr: nat, canMulti: bool)
    returns (ok: bool, cp: nat, bp: nat, plus: bool)
    requires 1 <= start <= from <= |s| == work.Length && valstr <= from - start && NUL !in s
    modifies work
    ensures work[..valstr] == old(work[..valstr])
    ensures !ok <==> ScanValue(s[from..], canMulti).Broken?
    ensures ok ==>
              && from <= cp <= |s| && valstr <= bp <= cp - start
              && ScanValue(s[from..], canMulti) == Value(work[valstr..bp], s[if cp < |s| then cp + 1 else cp..], plus)
              && NUL !in work[valstr..bp]
  {
    hide ScanValue, Continue;
    ScanEnds(s, canMulti);
    ContinueNothing(ScanValue(s[from..], canMulti));
    ok, cp, bp, plus := true, from, valstr, false;
    ghost var before := work[..valstr];
    assert work[valstr..bp] == [];
    while cp < |s| && s[cp] != '/'
      invariant from <= cp <= |s| && valstr <= bp <= cp - start && !plus && ok
      invariant work[..valstr] == before
      invariant NUL !in work[valstr..bp]
      invariant ScanValue(s[from..], canMulti) == Continue(work[valstr..bp], ScanValue(s[cp..], canMulti))
    {
      if canMulti && s[cp] == '+' {
        plus := true;
        ScanStops(s, cp, canMulti);
        ContinueEnds(work[valstr..bp], s[cp + 1..], true);
        return;
      }
      ghost var at := cp;
      if s[cp] == '\\' {
        cp := cp + 1;
        if cp == |s| {
          ScanBreaks(s, at, canMulti);
          ContinueEnds(work[valstr..bp], [], false);
          ok := false;
          return;
        }
      }
      ghost var text := work[valstr..bp];
      ScanOneMore(s, at, cp, canMulti);
      ContinueOne(text, s[cp], ScanValue(s[cp + 1..], canMulti));
      work[bp] := s[cp];
      assert work[valstr..bp + 1] == text + [s[cp]];
      assert s[cp] in s;
      bp, cp := bp + 1, cp + 1;
    }
    if cp < |s| {
      ScanStops(s, cp, canMulti);
      ContinueEnds(work[valstr..bp], s[cp + 1..], false);
    } else {
      ContinueEnds(work[valstr..bp], [], false);
    }
  }

  lemma ScanEnds(s: string, canMulti: bool)
    ensures s[|s|..] == [] && ScanValue([], canMulti) == Value([], [], false)
  {
  }

  lemma ScanStops(s: string, cp: nat, canMulti: bool)
    requires cp < |s| && (s[cp] == '/' || (canMulti && s[cp] == '+'))
    ensures ScanValue(s[cp..], canMulti) == Value([], s[cp + 1..], s[cp] == '+')
  {
    assert s[cp..][1..] == s[cp + 1..];
  }

  lemma ScanBreaks(s: string, at: nat, canMulti: bool)
    requires at + 1 == |s| && s[at] == '\\'
    ensures ScanValue(s[at..], canMulti) == Broken
  {
  }

  // One character of a value, escaped or not
  lemma ScanOneMore(s: string, at: nat, cp: nat, canMulti: bool)
    requires at <= cp < |s| && s[at] != '/' && !(canMulti && s[at] == '+')
    requires cp == if s[at] == '\\' then at + 1 else at
    ensures ScanValue(s[at..], canMulti) == Continue([s[cp]], ScanValue(s[cp + 1..], canMulti))
  {
    if s[at] == '\\' {
      assert s[at..][2..] == s[cp + 1..];
    } else {
      assert s[at..][1..] == s[cp + 1..];
    }
  }

  lemma ContinueOne(text: string, c: char, rest: Scanned)
    ensures Continue(text, Continue([c], rest)) == Continue(text + [c], rest)
  {
    if rest.Value? {
      assert text + ([c] + rest.text) == (text + [c]) + rest.text;
    }
  }

  lemma ContinueEnds(text: string, after: string, plus: bool)
    ensures Continue(text, Value([], after, plus)) == Value(text, after, plus)
    ensures Continue(text, Broken) == Broken
  {
    assert text + [] == text;
  }

  lemma ContinueNothing(rest: Scanned)
    ensures Continue([], rest) == rest
  {
    if rest.Value? {
      assert [] + rest.text == rest.text;
    }
  }

  // One round: collect an attribute at the start of the buffer; next is where the string goes on.
  method ReadAttribute(s: string, start: nat, work: array<char>, canMulti: bool, isMulti: bool, ghost lib: Library)
    returns (ok: bool, typ: string, val: string, next: nat, plus: bool)
    requires 1 <= start < |s| == work.Length && NUL !in s
    modifies work
    ensures !ok ==> ParseAttributes(s[start..], canMulti, isMulti, lib) == None
    ensures ok ==> start < next <= |s|
    ensures ok ==> (ParseAttributes(s[start..], canMulti, isMulti, lib)
                    == AddAttribute(Attribute(typ, val, isMulti), ParseAttributes(s[next..], canMulti, plus, lib), lib))
  {
    hide ParseAttributes, ScanValue, FindEquals, CString, AddAttribute;
    ParseRound(s, start, canMulti, isMulti, lib);
    ok, typ, val, plus := false, [], [], false;
    var bp;
    next, bp := CollectType(s, start, work);
    if next == |s| {
      return;
    }
    work[bp] := NUL;
    bp, next := bp + 1, next + 1;
    var valstr := bp;
    ghost var typeRead := work[..valstr];
    ok, next, bp, plus := CollectValue(s, start, next, work, valstr, canMulti);
    if !ok {
      return;
    }
    work[bp] := NUL;
    if next < |s| {
      next := next + 1;
    }
    assert work[..valstr] == typeRead && work[0..valstr - 1] == s[start..start + valstr - 1];
    CStringIs(work[..], 0, valstr - 1);
    CStringIs(work[..], valstr, bp - valstr);
    typ, val := CString(work[..], 0), CString(work[..], valstr);
  }

  // The parser works through one copy of the string: each attribute is collected at the start of the same buffer.
  method ParseNameInBuffer(s: string, canMulti: bool, lib: Library) returns (n: Option<seq<Attribute>>)
    requires NUL !in s
    ensures n == ParseName(s, canMulti, lib)
  {
    if s == [] || s[0] != '/' {
      return None;
    }
    hide ParseAttributes, AddAttribute;
    var work := new char[|s|];
    var cp, nextIsMulti, found := 1, false, [];
    PrependNothing(ParseName(s, canMulti, lib));
    while cp < |s|
      invariant 1 <= cp <= |s|
      invariant ParseName(s, canMulti, lib) == Prepend(found, ParseAttributes(s[cp..], canMulti, nextIsMulti, lib))
    {
      var isMulti := nextIsMulti;
      var ok, typ, val;
      ok, typ, val, cp, nextIsMulti := ReadAttribute(s, cp, work, canMulti, isMulti, lib);
      if !ok {
        return None;
      }
      PrependOne(found, Attribute(typ, val, isMulti), ParseAttributes(s[cp..], canMulti, nextIsMulti, lib), lib);
      if !lib.known(typ) {
        continue;
      }
      if !lib.takes(typ, val) {
        return None;
      }
      found := found + [Attribute(typ, val, isMulti)];
    }
    assert s[|s|..] == [];
    ParseNothing(found, canMulti, nextIsMulti, lib);
    n := Some(found);
  }

  lemma ParseNothing(found: seq<Attribute>, canMulti: bool, multi: bool, lib: Library)
    ensures Prepend(found, ParseAttributes([], canMulti, multi, lib)) == Some(found)
  {
    assert found + [] == found;
  }
}
