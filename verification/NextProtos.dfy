/**
 next_protos_parse: a comma-separated list of protocol names becomes one buffer in which every name is preceded
 by its length.
 */
module NextProtos {
  type Byte = x: int | 0 <= x < 256

  const COMMA: Byte := 44
  const MAX_LENGTH := 65535

  // The parts between the commas, of which there is always at least one
  function Split(s: seq<Byte>): (parts: seq<seq<Byte>>)
    ensures parts != []
  {
    if s == [] then [[]]
    else if s[0] == COMMA then [[]] + Split(s[1..])
    else
      var rest := Split(s[1..]);
      [[s[0]] + rest[0]] + rest[1..]
  }

  function Join(parts: seq<seq<Byte>>): seq<Byte>
    requires parts != []
  {
    if |parts| == 1 then parts[0] else parts[0] + [COMMA] + Join(parts[1..])
  }

  // Splitting loses nothing: joining restores the input.
  lemma {:induction false} JoinOfSplit(s: seq<Byte>)
    ensures Join(Split(s)) == s
  {
    if s != [] {
      JoinOfSplit(s[1..]);
      var rest := Split(s[1..]);
      if s[0] == COMMA {
        assert ([[]] + rest)[1..] == rest;
      } else if |rest| > 1 {
        assert ([[s[0]] + rest[0]] + rest[1..])[1..] == rest[1..];
        assert s == [s[0]] + (rest[0] + [COMMA] + Join(rest[1..]));
      }
    }
  }

  // Without commas the list is a single part; a comma ends a part.
  lemma {:induction false} SplitAtComma(a: seq<Byte>, b: seq<Byte>)
    requires COMMA !in a
    ensures Split(a) == [a] && Split(a + [COMMA] + b) == [a] + Split(b)
  {
    var s := a + [COMMA] + b;
    if a == [] {
      assert s[1..] == b;
    } else {
      SplitAtComma(a[1..], b);
      assert s[1..] == a[1..] + [COMMA] + b;
      assert [a[0]] + a[1..] == a;
      assert ([a[1..]] + Split(b))[1..] == Split(b);
    }
  }

  predicate Short(parts: seq<seq<Byte>>) {
    forall p :: p in parts ==> |p| <= 255
  }

  function Encode(parts: seq<seq<Byte>>): seq<Byte>
    requires Short(parts)
  {
    if parts == [] then [] else [|parts[0]|] + parts[0] + Encode(parts[1..])
  }

  // Reads lengths and names until the buffer ends; None if a name is cut short.
  datatype Decoded = Malformed | Names(names: seq<seq<Byte>>)

  function Decode(buf: seq<Byte>): Decoded {
    if buf == [] then Names([])
    else if |buf| <= buf[0] then Malformed
    else
      match Decode(buf[buf[0] + 1..])
      case Malformed => Malformed
      case Names(rest) => Names([buf[1..buf[0] + 1]] + rest)
  }

  lemma {:induction false} DecodeOfEncode(parts: seq<seq<Byte>>)
    requires Short(parts)
    ensures Decode(Encode(parts)) == Names(parts)
  {
    if parts != [] {
      var buf := Encode(parts);
      assert buf[|parts[0]| + 1..] == Encode(parts[1..]);
      assert buf[1..|parts[0]| + 1] == parts[0];
      DecodeOfEncode(parts[1..]);
    }
  }

  lemma ShortSnoc(parts: seq<seq<Byte>>, p: seq<Byte>)
    requires Short(parts) && |p| <= 255
    ensures Short(parts + [p])
  {
    assert forall q :: q in parts + [p] ==> q in parts || q == p;
  }

  lemma ShortRest(parts: seq<seq<Byte>>)
    requires Short(parts) && parts != []
    ensures Short(parts[1..]) && |parts[0]| <= 255
  {
    assert parts[0] in parts;
  }

  lemma {:induction false} EncodeSnoc(parts: seq<seq<Byte>>, p: seq<Byte>)
    requires Short(parts) && |p| <= 255
    ensures Short(parts + [p]) && Encode(parts + [p]) == Encode(parts) + [|p|] + p
  {
    hide Short;
    ShortSnoc(parts, p);
    if parts == [] {
      assert [p][1..] == [];
    } else {
      var all, rest := parts + [p], parts[1..];
      ShortRest(parts);
      EncodeSnoc(rest, p);
      assert all[0] == parts[0] && all[1..] == rest + [p];
    }
  }

  // What is left to split from position start; past the end there is nothing
  function Rest(input: seq<Byte>, start: nat): seq<seq<Byte>> {
    if start <= |input| then Split(input[start..]) else []
  }

  // The parts that end before position start are done.
  ghost predicate Progress(input: seq<Byte>, done: seq<seq<Byte>>, start: nat) {
    Split(input) == done + Rest(input, start)
  }

  lemma NextPart(input: seq<Byte>, start: nat, i: nat)
    requires start <= i <= |input|
    requires COMMA !in input[start..i] && (i == |input| || input[i] == COMMA)
    ensures Rest(input, start) == [input[start..i]] + Rest(input, i + 1)
  {
    hide Split;
    var part := input[start..i];
    if i == |input| {
      SplitAtComma(part, []);
      assert input[start..] == part;
    } else {
      SplitAtComma(part, input[i + 1..]);
      assert input[start..] == part + [COMMA] + input[i + 1..];
    }
  }

  lemma PartEnds(input: seq<Byte>, done: seq<seq<Byte>>, start: nat, i: nat)
    requires Progress(input, done, start) && start <= i <= |input|
    requires COMMA !in input[start..i] && (i == |input| || input[i] == COMMA)
    ensures input[start..i] in Split(input) && Progress(input, done + [input[start..i]], i + 1)
  {
    hide Split, Rest;
    NextPart(input, start, i);
    assert Split(input) == (done + [input[start..i]]) + Rest(input, i + 1);
    assert Split(input)[|done|] == input[start..i];
  }

  lemma ProgressStarts(input: seq<Byte>)
    ensures Progress(input, [], 0)
  {
    assert input[0..] == input;
  }

  lemma ProgressEnds(input: seq<Byte>, done: seq<seq<Byte>>)
    requires Progress(input, done, |input| + 1)
    ensures Split(input) == done
  {
    assert done + [] == done;
  }

  /**
   The length of a name is stored where its comma was, so every byte moves up by one.
   The result is null exactly if the list is too long or a name does not fit its length byte.
   */
  method NextProtosParse(input: seq<Byte>) returns (outlen: nat, out: array?<Byte>)
    ensures out == null <==> |input| >= 65535 || !Short(Split(input))
    ensures out != null ==> outlen == out.Length == |input| + 1 && out[..] == Encode(Split(input))
    ensures out != null ==> Decode(out[..]) == Names(Split(input))
  {
    hide Split, Encode, Decode, Progress, Short;
    ProgressStarts(input);
    var len := |input|;
    outlen, out := 0, null;
    if len >= MAX_LENGTH {
      return;
    }
    var buf := new Byte[len + 1];
    var start, i := 0, 0;
    ghost var done: seq<seq<Byte>> := [];
    assert buf[..0] == [];
    EncodeNothing();
    while i <= len
      invariant 0 <= start <= i <= len + 1 && (i == len + 1 ==> start == len + 1)
      invariant Progress(input, done, start) && Short(done)
      invariant i <= len ==> COMMA !in input[start..i] && buf[start + 1..i + 1] == input[start..i]
      invariant buf[..start] == Encode(done)
    {
      if i == len || input[i] == COMMA {
        ghost var part := input[start..i];
        PartEnds(input, done, start, i);
        if i - start > 255 {
          TooLong(Split(input), part);
          return;
        }
        EncodeSnoc(done, part);
        StoreLength(buf, start, i, part);
        done := done + [part];
        start := i + 1;
      } else {
        buf[i + 1] := input[i];
        assert buf[start + 1..i + 2] == buf[start + 1..i + 1] + [input[i]] == input[start..i + 1];
      }
      i := i + 1;
    }
    ProgressEnds(input, done);
    DecodeOfEncode(Split(input));
    assert buf[..] == buf[..start];
    outlen, out := len + 1, buf;
  }

  // The length goes in front of the name.
  method StoreLength(buf: array<Byte>, start: nat, i: nat, ghost part: seq<Byte>)
    requires start <= i < buf.Length && |part| == i - start <= 255
    requires buf[start + 1..i + 1] == part
    modifies buf
    ensures buf[..i + 1] == old(buf[..start]) + [|part|] + part
  {
    buf[start] := i - start;
    assert buf[start + 1..i + 1] == part;
    assert buf[..i + 1] == buf[..start] + [buf[start]] + buf[start + 1..i + 1];
  }

  lemma EncodeNothing()
    ensures Short([]) && Encode([]) == []
  {
  }

  lemma TooLong(parts: seq<seq<Byte>>, p: seq<Byte>)
    requires p in parts && |p| > 255
    ensures !Short(parts)
  {
  }
}
