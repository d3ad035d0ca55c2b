/**
 The policy section of a certificate authority: which fields of the request's name make up the subject of the
 certificate, and which of them have to agree with the name of the authority itself.
 */
module Policy {
  // One entry of a distinguished name: the object, as its number, and the text
  datatype Entry = Entry(obj: int, data: string)
  type Name = seq<Entry>

  // One line of the section, such as countryName = match
  datatype Line = Line(name: string, value: string)

  datatype Outcome = Failed | Subject(subject: Name)

  // OBJ_txt2nid; 0 is NID_undef
  type Objects = string -> nat

  // X509_NAME_get_index_by_OBJ: the next entry of this object after position last, or -1
  function IndexByObj(name: Name, obj: int, last: int): (j: int)
    requires -1 <= last
    ensures j < 0 ==> j == -1 && forall k :: last < k < |name| ==> name[k].obj != obj
    ensures j >= 0 ==> last < j < |name| && name[j].obj == obj
    ensures j >= 0 ==> forall k :: last < k < j ==> name[k].obj != obj
    decreases |name| - last
  {
    if |name| <= last + 1 then -1
    else if name[last + 1].obj == obj then last + 1
    else IndexByObj(name, obj, last + 1)
  }

  // The entries of one object, in the order of the name
  function Field(name: Name, obj: int): Name {
    if name == [] then []
    else Field(name[..|name| - 1], obj) + if name[|name| - 1].obj == obj then [name[|name| - 1]] else []
  }

  // ----- What the section promises -----

  predicate Present(name: Name, obj: int) {
    exists e :: e in name && e.obj == obj
  }

  // What one line demands of the request and of the authority's name
  predicate Allows(line: Line, nidOf: Objects, request: Name, ca: Name) {
    var obj := nidOf(line.name);
    && obj != 0
    && line.value in {"optional", "supplied", "match"}
    && (line.value != "optional" ==> Present(request, obj))
    && (line.value == "match" ==> Present(ca, obj) && forall e :: e in request && e.obj == obj ==> e in ca)
  }

  predicate AllAllow(policy: seq<Line>, nidOf: Objects, request: Name, ca: Name) {
    forall line :: line in policy ==> Allows(line, nidOf, request, ca)
  }

  // All entries of the listed objects: policy order first, request order within one object
  function Selected(policy: seq<Line>, nidOf: Objects, request: Name): Name {
    if policy == [] then []
    else Selected(policy[..|policy| - 1], nidOf, request) + Field(request, nidOf(policy[|policy| - 1].name))
  }

  ghost predicate Meets(policy: seq<Line>, nidOf: Objects, request: Name, ca: Name, o: Outcome) {
    o == if AllAllow(policy, nidOf, request, ca) then Subject(Selected(policy, nidOf, request)) else Failed
  }

  // ----- The loops -----

  lemma {:induction false} FieldUpTo(name: Name, obj: int, a: nat, b: nat)
    requires a <= b <= |name| && forall k :: a <= k < b ==> name[k].obj != obj
    ensures Field(name[..b], obj) == Field(name[..a], obj)
  {
    if a < b {
      FieldUpTo(name, obj, a, b - 1);
      assert name[..b][..b - 1] == name[..b - 1];
    }
  }

  // The entry found after position last is the next one of the field.
  lemma FieldNext(name: Name, obj: int, last: int)
    requires -1 <= last < |name|
    ensures var j := IndexByObj(name, obj, last);
            if j < 0 then Field(name[..last + 1], obj) == Field(name, obj)
            else Field(name[..j + 1], obj) == Field(name[..last + 1], obj) + [name[j]]
  {
    var j := IndexByObj(name, obj, last);
    if j < 0 {
      FieldUpTo(name, obj, last + 1, |name|);
      assert name[..|name|] == name;
    } else {
      FieldUpTo(name, obj, last + 1, j);
      assert name[..j + 1][..j] == name[..j];
    }
  }

  // The search marked again2: among the authority's entries of the object, the first that equals the one requested
  method FindEqual(ca: Name, obj: int, tne: Entry) returns (push: Outcome)
    requires tne.obj == obj
    ensures push == if tne in ca then Subject([tne]) else Failed
  {
    var last2 := -1;
    while true
      invariant -1 <= last2 < |ca|
      invariant forall k :: 0 <= k <= last2 ==> ca[k] != tne
      decreases |ca| - last2
    {
      var j := IndexByObj(ca, obj, last2);
      if j < 0 && last2 == -1 {
        return Failed;
      }
      if j < 0 {
        return Failed;
      }
      var candidate := ca[j];
      last2 := j;
      if tne.data == candidate.data {
        return Subject([candidate]);
      }
    }
  }

  // What the loop over the request's entries has established when it has passed position last
  ghost predicate Passed(line: Line, obj: int, request: Name, ca: Name, last: int) {
    && (last >= 0 ==> line.value in {"optional", "supplied", "match"} && Present(request, obj))
    && (last >= 0 && line.value == "match" ==> Present(ca, obj))
    && (line.value == "match" ==>
          forall k :: 0 <= k <= last && k < |request| && request[k].obj == obj ==> request[k] in ca)
  }

  // One line: the inner loop over all entries of its object in the request
  method SelectField(line: Line, nidOf: Objects, request: Name, ca: Name) returns (o: Outcome)
    ensures o == if Allows(line, nidOf, request, ca) then Subject(Field(request, nidOf(line.name))) else Failed
  {
    var obj := nidOf(line.name);
    if obj == 0 {
      return Failed;
    }
    var subject: Name := [];
    var last := -1;
    assert request[..0] == [];
    while true
      invariant -1 <= last < |request|
      invariant Passed(line, obj, request, ca, last)
      invariant subject == Field(request[..last + 1], obj)
      decreases |request| - last
    {
      var j := IndexByObj(request, obj, last);
      FieldNext(request, obj, last);
      if j < 0 && last != -1 {
        break;
      }
      var tne: Name := if j < 0 then [] else [request[j]];
      last := j;
      var push: Name := [];
      if line.value == "optional" {
        push := tne;
      } else if line.value == "supplied" {
        if tne == [] {
          return Failed;
        }
        push := tne;
      } else if line.value == "match" {
        if tne == [] {
          return Failed;
        }
        var found := FindEqual(ca, obj, tne[0]);
        if found == Failed {
          return Failed;
        }
        push := found.subject;
      } else {
        return Failed;
      }
      subject := subject + push;
      if j < 0 {
        break;
      }
    }
    o := Subject(subject);
  }

  // The policy part of do_body. With preserve the name of the request is taken over unchanged once it has passed.
  method ApplyPolicy(policy: seq<Line>, nidOf: Objects, request: Name, ca: Name, preserve: bool) returns (o: Outcome)
    ensures !preserve ==> Meets(policy, nidOf, request, ca, o)
    ensures preserve ==> o == if AllAllow(policy, nidOf, request, ca) then Subject(request) else Failed
  {
    var subject: Name := [];
    var i := 0;
    while i < |policy|
      invariant 0 <= i <= |policy|
      invariant AllAllow(policy[..i], nidOf, request, ca)
      invariant subject == Selected(policy[..i], nidOf, request)
    {
      assert policy[..i + 1][..i] == policy[..i];
      var field := SelectField(policy[i], nidOf, request, ca);
      if field == Failed {
        assert policy[i] in policy;
        return Failed;
      }
      subject := subject + field.subject;
      i := i + 1;
    }
    assert policy[..i] == policy;
    o := Subject(if preserve then request else subject);
  }

  // ----- Consequences -----

  lemma {:induction false} FieldMember(name: Name, obj: int, e: Entry)
    ensures e in Field(name, obj) <==> e in name && e.obj == obj
  {
    if name != [] {
      FieldMember(name[..|name| - 1], obj, e);
      assert name == name[..|name| - 1] + [name[|name| - 1]];
    }
  }

  // Nothing gets into a subject that the request did not ask for or the policy does not list, and every matched
  // field of it is one of the authority's own.
  lemma {:induction false} SubjectIsVouchedFor(policy: seq<Line>, nidOf: Objects, request: Name, ca: Name, e: Entry)
    requires AllAllow(policy, nidOf, request, ca)
    ensures e in Selected(policy, nidOf, request)
       <==> e in request && Lists(policy, nidOf, e.obj)
    ensures e in Selected(policy, nidOf, request)
        ==> forall line :: line in policy && nidOf(line.name) == e.obj && line.value == "match" ==> e in ca
  {
    if policy != [] {
      var rest, line := policy[..|policy| - 1], policy[|policy| - 1];
      assert policy == rest + [line];
      SubjectIsVouchedFor(rest, nidOf, request, ca, e);
      FieldMember(request, nidOf(line.name), e);
      assert line in policy && Allows(line, nidOf, request, ca);
      ListsSnoc(rest, line, nidOf, e.obj);
    }
  }

  lemma {:induction false} FieldConcat(a: Name, b: Name, obj: int)
    ensures Field(a + b, obj) == Field(a, obj) + Field(b, obj)
  {
    if b == [] {
      assert a + b == a;
    } else {
      FieldConcat(a, b[..|b| - 1], obj);
      assert (a + b)[..|a + b| - 1] == a + b[..|b| - 1];
    }
  }

  lemma FieldOfOne(e: Entry, obj: int)
    ensures Field([e], obj) == if e.obj == obj then [e] else []
  {
    assert [e][..0] == [];
  }

  lemma {:induction false} FieldOfField(name: Name, obj: int, other: int)
    ensures Field(Field(name, obj), other) == if obj == other then Field(name, obj) else []
  {
    if name != [] {
      var rest, e := name[..|name| - 1], name[|name| - 1];
      FieldOfField(rest, obj, other);
      if e.obj == obj {
        FieldConcat(Field(rest, obj), [e], other);
        FieldOfOne(e, other);
      } else {
        assert Field(name, obj) == Field(rest, obj);
      }
    }
  }

  predicate OneLinePerObject(policy: seq<Line>, nidOf: Objects) {
    forall i, k :: 0 <= i < k < |policy| ==> nidOf(policy[i].name) != nidOf(policy[k].name)
  }

  predicate Lists(policy: seq<Line>, nidOf: Objects, obj: int) {
    exists line :: line in policy && nidOf(line.name) == obj
  }

  lemma ListsSnoc(rest: seq<Line>, line: Line, nidOf: Objects, obj: int)
    ensures Lists(rest + [line], nidOf, obj) <==> Lists(rest, nidOf, obj) || nidOf(line.name) == obj
  {
    if Lists(rest, nidOf, obj) {
      var l :| l in rest && nidOf(l.name) == obj;
      assert l in rest + [line];
    }
    assert line in rest + [line];
  }

  lemma LastLineIsNew(policy: seq<Line>, nidOf: Objects, n: nat)
    requires OneLinePerObject(policy, nidOf) && n + 1 == |policy|
    ensures OneLinePerObject(policy[..n], nidOf) && !Lists(policy[..n], nidOf, nidOf(policy[n].name))
  {
    forall l | l in policy[..n] ensures nidOf(l.name) != nidOf(policy[n].name) {
      var i :| 0 <= i < n && policy[..n][i] == l;
      assert policy[i] == l;
    }
  }

  // With one line per object the field of the subject is the
  // field of the request.
  lemma {:induction false} FieldIsPreserved(policy: seq<Line>, nidOf: Objects, request: Name, obj: int)
    requires OneLinePerObject(policy, nidOf)
    ensures Field(Selected(policy, nidOf, request), obj)
         == if Lists(policy, nidOf, obj) then Field(request, obj) else []
  {
    hide OneLinePerObject, Lists, Field;
    if policy == [] {
      NothingListed(nidOf, request, obj);
    } else {
      var n := |policy| - 1;
      var rest, line := policy[..n], policy[n];
      assert policy == rest + [line];
      LastLineIsNew(policy, nidOf, n);
      FieldIsPreserved(rest, nidOf, request, obj);
      FieldConcat(Selected(rest, nidOf, request), Field(request, nidOf(line.name)), obj);
      FieldOfField(request, nidOf(line.name), obj);
      ListsSnoc(rest, line, nidOf, obj);
    }
  }

  lemma NothingListed(nidOf: Objects, request: Name, obj: int)
    ensures !Lists([], nidOf, obj) && Field(Selected([], nidOf, request), obj) == []
  {
  }
}
