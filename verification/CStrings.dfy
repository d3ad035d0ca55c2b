/**
 Text as the programs keep it: characters up to a terminating zero, in buffers of fixed size.
 */
module CStrings {
  const NUL: char := '\0'

  // The C string that starts at position i of a buffer
  function CString(buf: seq<char>, i: nat): string
    requires i <= |buf|
    decreases |buf| - i
  {
    if i == |buf| || buf[i] == NUL then [] else [buf[i]] + CString(buf, i + 1)
  }

  lemma {:induction false} CStringIs(buf: seq<char>, i: nat, n: nat)
    requires i + n < |buf| && buf[i + n] == NUL && NUL !in buf[i..i + n]
    ensures CString(buf, i) == buf[i..i + n]
    decreases n
  {
    if n > 0 {
      assert buf[i] in buf[i..i + n];
      CStringIs(buf, i + 1, n - 1);
      assert buf[i..i + n] == [buf[i]] + buf[i + 1..i + n];
    }
  }

  // tolower and strcasecmp in the C locale
  function Lower(c: char): char {
    if 'A' <= c <= 'Z' then c + (32 as char) else c
  }

  predicate SameText(a: string, b: string) {
    |a| == |b| && forall i :: 0 <= i < |a| ==> Lower(a[i]) == Lower(b[i])
  }

  // How much of a text fits before the terminator
  function Fitting(src: string, size: nat): string
    requires size > 0
  {
    if |src| < size then src else src[..size - 1]
  }

  // OPENSSL_strlcpy to position at of dst, where size characters are left
  method Strlcpy(dst: array<char>, at: nat, src: string, size: nat)
    requires 0 < size && at + size == dst.Length
    modifies dst
    ensures dst[..at] == old(dst[..at])
    ensures dst[at..at + |Fitting(src, size)| + 1] == Fitting(src, size) + [NUL]
    ensures dst[at + |Fitting(src, size)| + 1..] == old(dst[at + |Fitting(src, size)| + 1..])
  {
    var k := 0;
    while k + 1 < size && k < |src|
      invariant 0 <= k <= |Fitting(src, size)|
      invariant dst[..at] == old(dst[..at]) && dst[at..at + k] == src[..k]
      invariant dst[at + k..] == old(dst[at + k..])
    {
      dst[at + k] := src[k];
      assert dst[at..at + k + 1] == dst[at..at + k] + [src[k]];
      k := k + 1;
    }
    assert src[..k] == Fitting(src, size);
    dst[at + k] := NUL;
    assert dst[at..at + k + 1] == dst[at..at + k] + [NUL];
  }

  // OPENSSL_strlcat onto the string at the start of dst
  method Strlcat(dst: array<char>, src: string, ghost have: string)
    requires |have| < dst.Length && NUL !in have && dst[..|have| + 1] == have + [NUL]
    modifies dst
    ensures var fitting := Fitting(src, dst.Length - |have|);
            dst[..|have| + |fitting| + 1] == have + fitting + [NUL]
  {
    var l := 0;
    assert forall i :: 0 <= i <= |have| ==> dst[i] == dst[..|have| + 1][i];
    while l < dst.Length && dst[l] != NUL
      invariant 0 <= l <= |have|
    {
      l := l + 1;
    }
    assert l == |have| && dst[..l] == have;
    Strlcpy(dst, l, src, dst.Length - l);
    ghost var fitting := Fitting(src, dst.Length - l);
    assert dst[..l + |fitting| + 1] == dst[..l] + dst[l..l + |fitting| + 1];
  }

  // strchr from position i on; the length of the string when the character is not there
  method Strchr(buf: array<char>, i: nat, c: char, ghost n: nat) returns (p: nat)
    requires i <= n < buf.Length && buf[n] == NUL && NUL !in buf[i..n] && c != NUL
    ensures i <= p <= n && c !in buf[i..p] && (p < n ==> buf[p] == c)
    ensures (p < n) == (buf[p] != NUL)
  {
    p := i;
    assert forall k :: i <= k < n ==> buf[k] == buf[i..n][k - i];
    while buf[p] != NUL && buf[p] != c
      invariant i <= p <= n && c !in buf[i..p]
      decreases n - p
    {
      p := p + 1;
    }
  }
}
