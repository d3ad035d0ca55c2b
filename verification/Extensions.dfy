/**
 copy_extensions: the extensions a request asks for are merged into the list of the certificate being made.
 */
module Extensions {
  // typ stands for the object identifier, which is all the merge looks at.
  datatype Extension = Extension(typ: int, value: seq<int>)

  datatype CopyMode = CopyNone | CopyAdd | CopyAll

  predicate HasType(exts: seq<Extension>, typ: int) {
    exists e :: e in exts && e.typ == typ
  }

  // The position of the first extension of this type after position last, or -1
  function IndexOf(exts: seq<Extension>, typ: int, last: int): (idx: int)
    requires -1 <= last
    ensures idx == -1 ==> forall k :: last < k < |exts| ==> exts[k].typ != typ
    ensures idx != -1 ==> last < idx < |exts| && exts[idx].typ == typ
    ensures idx != -1 ==> forall k :: last < k < idx ==> exts[k].typ != typ
    decreases |exts| - last
  {
    if |exts| <= last + 1 then -1
    else if exts[last + 1].typ == typ then last + 1
    else IndexOf(exts, typ, last + 1)
  }

  // The elements at the positions below n that satisfy keep, in order
  ghost function Pick(s: seq<Extension>, keep: nat -> bool, n: nat): seq<Extension>
    requires n <= |s|
  {
    if n == 0 then []
    else Pick(s, keep, n - 1) + if keep(n - 1) then [s[n - 1]] else []
  }

  ghost function OfOtherType(s: seq<Extension>, typ: int): nat -> bool {
    (i: nat) => i < |s| && s[i].typ != typ
  }

  ghost function Without(s: seq<Extension>, typ: int): seq<Extension> {
    Pick(s, OfOtherType(s, typ), |s|)
  }

  // No earlier extension of the request has the type of this one.
  predicate First(req: seq<Extension>, i: nat) {
    i < |req| && forall k :: 0 <= k < i ==> req[k].typ != req[i].typ
  }

  // No later one has.
  predicate Last(req: seq<Extension>, i: nat) {
    i < |req| && forall k :: i < k < |req| ==> req[k].typ != req[i].typ
  }

  ghost function IsFirstNew(cert: seq<Extension>, req: seq<Extension>): nat -> bool {
    (i: nat) => First(req, i) && !HasType(cert, req[i].typ)
  }

  ghost function IsLast(req: seq<Extension>): nat -> bool {
    (i: nat) => Last(req, i)
  }

  ghost function IsNotRequested(cert: seq<Extension>, req: seq<Extension>): nat -> bool {
    (i: nat) => i < |cert| && !HasType(req, cert[i].typ)
  }

  // The result in closed form
  ghost function Merged(cert: seq<Extension>, req: seq<Extension>, mode: CopyMode): seq<Extension> {
    match mode
    case CopyNone => cert
    case CopyAdd => cert + Pick(req, IsFirstNew(cert, req), |req|)
    case CopyAll =>
      Pick(cert, IsNotRequested(cert, req), |cert|) + Pick(req, IsLast(req), |req|)
  }

  // ----- Facts about Pick -----

  lemma {:induction false} PickAgree(s: seq<Extension>, t: seq<Extension>, p: nat -> bool, q: nat -> bool, n: nat)
    requires n <= |s| && n <= |t| && s[..n] == t[..n]
    requires forall i: nat :: i < n ==> p(i) == q(i)
    ensures Pick(s, p, n) == Pick(t, q, n)
  {
    if n > 0 {
      assert s[n - 1] == s[..n][n - 1] == t[n - 1];
      assert s[..n - 1] == s[..n][..n - 1] == t[..n - 1];
      PickAgree(s, t, p, q, n - 1);
    }
  }

  lemma {:induction false} PickAll(s: seq<Extension>, p: nat -> bool, n: nat)
    requires n <= |s| && forall i: nat :: i < n ==> p(i)
    ensures Pick(s, p, n) == s[..n]
  {
    if n > 0 {
      PickAll(s, p, n - 1);
      assert s[..n] == s[..n - 1] + [s[n - 1]];
    }
  }

  lemma {:induction false} PickNone(s: seq<Extension>, p: nat -> bool, n: nat)
    requires n <= |s| && forall i: nat :: i < n ==> !p(i)
    ensures Pick(s, p, n) == []
  {
    if n > 0 {
      PickNone(s, p, n - 1);
    }
  }

  lemma {:induction false} PickMember(s: seq<Extension>, p: nat -> bool, n: nat, e: Extension)
    requires n <= |s|
    ensures e in Pick(s, p, n) <==> exists i: nat :: i < n && p(i) && s[i] == e
  {
    if n > 0 {
      PickMember(s, p, n - 1, e);
      if e in Pick(s, p, n - 1) {
        var i: nat :| i < n - 1 && p(i) && s[i] == e;
        assert i < n && p(i);
      }
    }
  }

  // Removing from s is removing from each half.
  lemma {:induction false} WithoutConcat(a: seq<Extension>, b: seq<Extension>, typ: int)
    ensures Without(a + b, typ) == Without(a, typ) + Without(b, typ)
  {
    var s := a + b;
    if b == [] {
      assert s == a;
    } else {
      var c, e := b[..|b| - 1], b[|b| - 1];
      assert b == c + [e];
      assert s == (a + c) + [e];
      WithoutConcat(a, c, typ);
      WithoutSnoc(a + c, e, typ);
      WithoutSnoc(c, e, typ);
    }
  }

  lemma WithoutSnoc(s: seq<Extension>, e: Extension, typ: int)
    ensures Without(s + [e], typ) == Without(s, typ) + if e.typ == typ then [] else [e]
  {
    var t := s + [e];
    PickAgree(t, s, OfOtherType(t, typ), OfOtherType(s, typ), |s|);
  }

  // Removing a type from what was picked is picking more strictly.
  lemma {:induction false} WithoutPick(s: seq<Extension>, p: nat -> bool, q: nat -> bool, n: nat, typ: int)
    requires n <= |s|
    requires forall i: nat :: i < n ==> (q(i) <==> p(i) && s[i].typ != typ)
    ensures Without(Pick(s, p, n), typ) == Pick(s, q, n)
  {
    if n > 0 {
      WithoutPick(s, p, q, n - 1, typ);
      if p(n - 1) {
        WithoutSnoc(Pick(s, p, n - 1), s[n - 1], typ);
      } else {
        assert Pick(s, p, n) == Pick(s, p, n - 1);
      }
    }
  }

  // Deleting an extension of the type changes nothing about what is left without that type.
  lemma DeletePreservesWithout(s: seq<Extension>, idx: nat, typ: int)
    requires idx < |s| && s[idx].typ == typ
    ensures Without(s[..idx] + s[idx + 1..], typ) == Without(s, typ)
  {
    assert s == (s[..idx] + [s[idx]]) + s[idx + 1..];
    WithoutConcat(s[..idx] + [s[idx]], s[idx + 1..], typ);
    WithoutSnoc(s[..idx], s[idx], typ);
    WithoutConcat(s[..idx], s[idx + 1..], typ);
  }

  lemma WithoutNothing(s: seq<Extension>, typ: int)
    requires forall k :: 0 <= k < |s| ==> s[k].typ != typ
    ensures Without(s, typ) == s
  {
    PickAll(s, OfOtherType(s, typ), |s|);
    assert s[..|s|] == s;
  }

  // ----- One more requested extension -----

  lemma NothingRequested(cert: seq<Extension>, mode: CopyMode)
    ensures Merged(cert, [], mode) == cert
  {
    PickAll(cert, IsNotRequested(cert, []), |cert|);
    assert cert[..|cert|] == cert;
  }

  lemma MergedTypesAdd(cert: seq<Extension>, req: seq<Extension>, typ: int)
    ensures HasType(Merged(cert, req, CopyAdd), typ) <==> HasType(cert, typ) || HasType(req, typ)
  {
    var p := IsFirstNew(cert, req);
    forall e ensures e in Pick(req, p, |req|) <==> exists i: nat :: i < |req| && p(i) && req[i] == e {
      PickMember(req, p, |req|, e);
    }
    if HasType(req, typ) && !HasType(cert, typ) {
      var e :| e in req && e.typ == typ;
      var idx := IndexOf(req, typ, -1);
      assert First(req, idx);
      assert req[idx] in Pick(req, p, |req|);
      assert req[idx] in Merged(cert, req, CopyAdd);
    }
    if HasType(cert, typ) {
      var e :| e in cert && e.typ == typ;
      assert e in Merged(cert, req, CopyAdd);
    }
  }

  lemma FirstSnoc(req: seq<Extension>, e: Extension, i: nat)
    requires i < |req|
    ensures First(req + [e], i) <==> First(req, i)
  {
    var all := req + [e];
    if First(all, i) {
      forall k | 0 <= k < i ensures req[k].typ != req[i].typ {
        assert all[k].typ != all[i].typ;
      }
    }
  }

  lemma FirstAtEnd(req: seq<Extension>, e: Extension)
    ensures First(req + [e], |req|) <==> !HasType(req, e.typ)
  {
    var all := req + [e];
    if HasType(req, e.typ) {
      var r :| r in req && r.typ == e.typ;
      var k :| 0 <= k < |req| && req[k] == r;
      assert all[k].typ == all[|req|].typ;
    } else {
      forall k | 0 <= k < |req| ensures all[k].typ != e.typ {
        assert req[k] in req;
      }
    }
  }

  lemma AddOneMore(cert: seq<Extension>, req: seq<Extension>, e: Extension)
    ensures Merged(cert, req + [e], CopyAdd)
         == Merged(cert, req, CopyAdd) + if HasType(cert, e.typ) || HasType(req, e.typ) then [] else [e]
  {
    hide First, HasType;
    var all := req + [e];
    var p, q := IsFirstNew(cert, all), IsFirstNew(cert, req);
    forall i: nat | i < |req| ensures p(i) == q(i) {
      FirstSnoc(req, e, i);
    }
    PickAgree(all, req, p, q, |req|);
    FirstAtEnd(req, e);
    assert Pick(all, p, |all|) == Pick(all, p, |req|) + if p(|req|) then [e] else [];
  }

  lemma ReplaceOneMore(cert: seq<Extension>, req: seq<Extension>, e: Extension)
    ensures Merged(cert, req + [e], CopyAll) == Without(Merged(cert, req, CopyAll), e.typ) + [e]
  {
    var all := req + [e];
    var p, q := IsNotRequested(cert, req), IsNotRequested(cert, all);
    forall i: nat | i < |cert| ensures q(i) <==> p(i) && cert[i].typ != e.typ {
      HasTypeSnoc(req, e, cert[i].typ);
    }
    WithoutPick(cert, p, q, |cert|, e.typ);
    var f, g := IsLast(req), IsLast(all);
    forall i: nat | i < |req| ensures g(i) <==> f(i) && req[i].typ != e.typ {
      LastSnoc(req, e, i);
    }
    PickAgree(all, req, g, g, |req|);
    WithoutPick(req, f, g, |req|, e.typ);
    assert Last(all, |req|);
    WithoutConcat(Pick(cert, p, |cert|), Pick(req, f, |req|), e.typ);
  }

  lemma HasTypeSnoc(req: seq<Extension>, e: Extension, typ: int)
    ensures HasType(req + [e], typ) <==> HasType(req, typ) || e.typ == typ
  {
    if HasType(req, typ) {
      var r :| r in req && r.typ == typ;
      assert r in req + [e];
    }
    assert e in req + [e];
  }

  lemma LastSnoc(req: seq<Extension>, e: Extension, i: nat)
    requires i < |req|
    ensures Last(req + [e], i) <==> Last(req, i) && req[i].typ != e.typ
  {
    var all := req + [e];
    if Last(all, i) {
      assert all[|req|].typ != all[i].typ;
      forall k | i < k < |req| ensures req[k].typ != req[i].typ {
        assert all[k].typ != all[i].typ;
      }
    }
  }

  // Merging the same request a second time changes nothing.
  lemma MergeTwice(cert: seq<Extension>, req: seq<Extension>, mode: CopyMode)
    ensures Merged(Merged(cert, req, mode), req, mode) == Merged(cert, req, mode)
  {
    var once := Merged(cert, req, mode);
    match mode
    case CopyNone =>
    case CopyAdd =>
      forall i: nat | i < |req| ensures !IsFirstNew(once, req)(i) {
        assert req[i] in req;
        MergedTypesAdd(cert, req, req[i].typ);
      }
      PickNone(req, IsFirstNew(once, req), |req|);
    case CopyAll =>
      var kept, last := Pick(cert, IsNotRequested(cert, req), |cert|), Pick(req, IsLast(req), |req|);
      forall i: nat | i < |once| ensures IsNotRequested(once, req)(i) <==> i < |kept| {
        if i < |kept| {
          PickMember(cert, IsNotRequested(cert, req), |cert|, once[i]);
        } else {
          assert once[i] == last[i - |kept|];
          PickMember(req, IsLast(req), |req|, once[i]);
        }
      }
      PickPrefix(once, IsNotRequested(once, req), |kept|, |once|);
      assert once[..|kept|] == kept;
  }

  lemma {:induction false} PickPrefix(s: seq<Extension>, p: nat -> bool, k: nat, n: nat)
    requires k <= n <= |s| && forall i: nat :: i < n ==> (p(i) <==> i < k)
    ensures Pick(s, p, n) == s[..k]
  {
    if n > k {
      PickPrefix(s, p, k, n - 1);
    } else {
      PickAll(s, p, n);
    }
  }

  lemma IndexIsOfType(exts: seq<Extension>, typ: int)
    ensures IndexOf(exts, typ, -1) != -1 <==> HasType(exts, typ)
  {
    var idx := IndexOf(exts, typ, -1);
    if idx != -1 {
      assert exts[idx] in exts;
    }
  }

  lemma NoneMerged(cert: seq<Extension>, req: seq<Extension>)
    ensures Merged(cert, req, CopyNone) == cert
  {
  }

  // ----- The certificate -----

  class Certificate {
    var extensions: seq<Extension>

    constructor (exts: seq<Extension>)
      ensures extensions == exts
    {
      extensions := exts;
    }

    method Delete(idx: nat)
      requires idx < |extensions|
      modifies this
      ensures extensions == old(extensions[..idx] + extensions[idx + 1..])
    {
      extensions := extensions[..idx] + extensions[idx + 1..];
    }

    // The inner loop: every extension of the type goes, the others keep their order.
    method DeleteAll(typ: int, first: nat)
      requires first < |extensions| && extensions[first].typ == typ
      modifies this
      ensures extensions == Without(old(extensions), typ)
    {
      var idx := first as int;
      while true
        invariant -1 <= idx < |extensions| && (idx != -1 ==> extensions[idx].typ == typ)
        invariant idx != -1 && Without(extensions, typ) == Without(old(extensions), typ)
        decreases |extensions|
      {
        DeletePreservesWithout(extensions, idx, typ);
        Delete(idx);
        idx := IndexOf(extensions, typ, -1);
        if idx == -1 {
          WithoutNothing(extensions, typ);
          break;
        }
      }
    }

    // copy_extensions; the result 1 of the source is not repeated here, it is returned whenever memory suffices.
    method CopyExtensions(req: seq<Extension>, mode: CopyMode)
      modifies this
      ensures extensions == Merged(old(extensions), req, mode)
    {
      hide Merged, Pick, Without, HasType;
      NoneMerged(extensions, req);
      if mode == CopyNone {
        return;
      }
      NothingRequested(extensions, mode);
      var i := 0;
      while i < |req|
        invariant 0 <= i <= |req| && extensions == Merged(old(extensions), req[..i], mode)
      {
        var ext := req[i];
        assert req[..i + 1] == req[..i] + [ext];
        var idx := IndexOf(extensions, ext.typ, -1);
        IndexIsOfType(extensions, ext.typ);
        if mode == CopyAdd {
          AddOneMore(old(extensions), req[..i], ext);
          MergedTypesAdd(old(extensions), req[..i], ext.typ);
        } else {
          ReplaceOneMore(old(extensions), req[..i], ext);
        }
        if idx != -1 {
          if mode == CopyAdd {
            i := i + 1;
            continue;
          }
          DeleteAll(ext.typ, idx);
        } else if mode == CopyAll {
          WithoutNothing(extensions, ext.typ);
        }
        extensions := extensions + [ext];
        i := i + 1;
      }
      assert req[..|req|] == req;
    }
  }
}
