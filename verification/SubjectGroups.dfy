/**
 The relative names that parse_name builds. An attribute after a plus sign joins the one before it; where types that
 the library does not know are skipped, the one before it may be another than the one that was written there.
 */
module SubjectGroups {
  import opened Options
  import opened SubjectName

  type Group = seq<Attribute>

  // X509_NAME_add_entry with set -1 or 0: the entry joins the last relative name, if there is one, or begins one.
  function AddEntry(groups: seq<Group>, a: Attribute): seq<Group> {
    var n := |groups|;
    if a.multi && n > 0 then groups[..n - 1] + [groups[n - 1] + [a]] else groups + [[a]]
  }

  // The relative names of a list of attributes
  function Groups(attrs: seq<Attribute>): seq<Group> {
    if attrs == [] then [] else AddEntry(Groups(attrs[..|attrs| - 1]), attrs[|attrs| - 1])
  }

  function NotEmpty(g: Group): seq<Group> {
    if g == [] then [] else [g]
  }

  // The relative names as they were written, each without its unknown attributes
  function KnownGroups(groups: seq<Group>, lib: Library): seq<Group> {
    if groups == [] then []
    else KnownGroups(groups[..|groups| - 1], lib) + NotEmpty(Known(groups[|groups| - 1], lib))
  }

  // An earlier attribute of the relative name that was written for attribute i is known.
  predicate KnownBeforeInGroup(attrs: seq<Attribute>, i: nat, lib: Library)
    requires i < |attrs|
  {
    attrs[i].multi && KnownAtEnd(attrs[..i], lib)
  }

  predicate KnownBefore(attrs: seq<Attribute>, i: nat, lib: Library)
    requires i < |attrs|
  {
    exists k :: 0 <= k < i && lib.known(attrs[k].typ)
  }

  // A known attribute after a plus sign has a known one before it in its relative name, or none before it at all.
  predicate Attached(attrs: seq<Attribute>, i: nat, lib: Library)
    requires i < |attrs|
  {
    attrs[i].multi && lib.known(attrs[i].typ) ==> KnownBeforeInGroup(attrs, i, lib) || !KnownBefore(attrs, i, lib)
  }

  predicate AllAttached(attrs: seq<Attribute>, lib: Library) {
    forall i :: 0 <= i < |attrs| ==> Attached(attrs, i, lib)
  }

  // ----- One more attribute -----

  lemma {:induction false} KnownSnoc(attrs: seq<Attribute>, a: Attribute, lib: Library)
    ensures Known(attrs + [a], lib) == Known(attrs, lib) + if lib.known(a.typ) then [a] else []
  {
    if attrs == [] {
      assert Known([], lib) == [] && [a][1..] == [];
    } else {
      KnownSnoc(attrs[1..], a, lib);
      assert (attrs + [a])[1..] == attrs[1..] + [a];
    }
  }

  lemma GroupsSnoc(attrs: seq<Attribute>, a: Attribute)
    ensures Groups(attrs + [a]) == AddEntry(Groups(attrs), a)
  {
    assert (attrs + [a])[..|attrs|] == attrs;
  }

  lemma KnownGroupsSnoc(groups: seq<Group>, g: Group, lib: Library)
    ensures KnownGroups(groups + [g], lib) == KnownGroups(groups, lib) + NotEmpty(Known(g, lib))
  {
    assert (groups + [g])[..|groups|] == groups;
  }

  lemma SplitLast(attrs: seq<Attribute>)
    requires attrs != []
    ensures attrs == attrs[..|attrs| - 1] + [attrs[|attrs| - 1]]
  {
  }

  lemma {:induction false} NoGroups(attrs: seq<Attribute>)
    ensures Groups(attrs) == [] <==> attrs == []
  {
  }

  // Whether the last relative name as written has a known attribute
  predicate LastGroupKnown(groups: seq<Group>, lib: Library) {
    groups != [] && Known(groups[|groups| - 1], lib) != []
  }

  lemma AddToLast(rest: seq<Group>, g: Group, a: Attribute)
    requires a.multi
    ensures AddEntry(rest + [g], a) == rest + [g + [a]]
  {
    assert (rest + [g])[..|rest|] == rest;
  }

  lemma AddAlone(groups: seq<Group>, a: Attribute)
    requires !a.multi || groups == []
    ensures AddEntry(groups, a) == groups + [[a]]
  {
  }

  // An attribute joins the last relative name as written.
  lemma JoinStep(rest: seq<Group>, g: Group, a: Attribute, lib: Library)
    requires a.multi
    ensures var before, after := KnownGroups(rest + [g], lib), KnownGroups(rest + [g + [a]], lib);
            if !lib.known(a.typ) then after == before
            else if Known(g, lib) != [] then before != [] && after == AddEntry(before, a)
            else after == before + [[a]]
    ensures Known(g + [a], lib) != [] <==> lib.known(a.typ) || Known(g, lib) != []
  {
    hide Known, KnownGroups, AddEntry;
    KnownGroupsSnoc(rest, g, lib);
    KnownGroupsSnoc(rest, g + [a], lib);
    KnownSnoc(g, a, lib);
    var kept := Known(g, lib);
    if !lib.known(a.typ) {
      assert kept + [] == kept;
    } else if kept != [] {
      AddToLast(KnownGroups(rest, lib), kept, a);
    } else {
      assert [] + [a] == [a];
      assert KnownGroups(rest, lib) + [] == KnownGroups(rest, lib);
    }
  }

  // It begins a new one.
  lemma NewStep(groups: seq<Group>, a: Attribute, lib: Library)
    ensures KnownGroups(groups + [[a]], lib) == KnownGroups(groups, lib) + if lib.known(a.typ) then [[a]] else []
    ensures Known([a], lib) != [] <==> lib.known(a.typ)
  {
    hide Known, KnownGroups;
    KnownGroupsSnoc(groups, [a], lib);
    KnownSnoc([], a, lib);
    NothingKnown(lib);
    assert [] + [a] == [a];
  }

  // What an attribute does to the relative names as written, and to those without unknown attributes
  lemma KnownGroupsStep(groups: seq<Group>, a: Attribute, lib: Library)
    ensures var before, after := KnownGroups(groups, lib), KnownGroups(AddEntry(groups, a), lib);
            if !lib.known(a.typ) then after == before
            else if a.multi && LastGroupKnown(groups, lib) then before != [] && after == AddEntry(before, a)
            else after == before + [[a]]
    ensures LastGroupKnown(AddEntry(groups, a), lib)
       <==> lib.known(a.typ) || (a.multi && LastGroupKnown(groups, lib))
  {
    hide Known, KnownGroups, AddEntry;
    if a.multi && groups != [] {
      var rest, g := groups[..|groups| - 1], groups[|groups| - 1];
      assert groups == rest + [g];
      AddToLast(rest, g, a);
      JoinStep(rest, g, a, lib);
    } else {
      AddAlone(groups, a);
      NewStep(groups, a, lib);
      assert KnownGroups(groups, lib) + [] == KnownGroups(groups, lib);
    }
  }

  lemma NothingKnown(lib: Library)
    ensures Known([], lib) == []
  {
  }

  lemma {:induction false} KnownGroupsEmpty(attrs: seq<Attribute>, lib: Library)
    ensures KnownGroups(Groups(attrs), lib) == [] <==> Known(attrs, lib) == []
  {
    hide Known, AddEntry;
    NothingKnown(lib);
    if attrs != [] {
      var n := |attrs| - 1;
      KnownGroupsEmpty(attrs[..n], lib);
      SplitLast(attrs);
      KnownSnoc(attrs[..n], attrs[n], lib);
      KnownGroupsStep(Groups(attrs[..n]), attrs[n], lib);
      AddEntryNotEmpty(KnownGroups(Groups(attrs[..n]), lib), attrs[n]);
    }
  }

  lemma AddEntryNotEmpty(groups: seq<Group>, a: Attribute)
    ensures AddEntry(groups, a) != []
  {
  }

  // Going back from the end, a known attribute is found before or at the first that does not join another.
  predicate KnownAtEnd(attrs: seq<Attribute>, lib: Library) {
    exists k :: 0 <= k < |attrs| && ReachesEnd(attrs, k, lib)
  }

  predicate ReachesEnd(attrs: seq<Attribute>, k: nat, lib: Library) {
    k < |attrs| && lib.known(attrs[k].typ) && forall j :: k < j < |attrs| ==> attrs[j].multi
  }

  lemma ReachesEndSnoc(attrs: seq<Attribute>, a: Attribute, k: nat, lib: Library)
    requires k < |attrs|
    ensures ReachesEnd(attrs + [a], k, lib) <==> ReachesEnd(attrs, k, lib) && a.multi
  {
    var all := attrs + [a];
    assert all[|attrs|] == a && forall j :: 0 <= j < |attrs| ==> all[j] == attrs[j];
  }

  lemma KnownAtEndSnoc(attrs: seq<Attribute>, a: Attribute, lib: Library)
    ensures KnownAtEnd(attrs + [a], lib) <==> lib.known(a.typ) || (a.multi && KnownAtEnd(attrs, lib))
  {
    var all := attrs + [a];
    forall k: nat | k < |attrs| ensures ReachesEnd(all, k, lib) <==> ReachesEnd(attrs, k, lib) && a.multi {
      ReachesEndSnoc(attrs, a, k, lib);
    }
    assert ReachesEnd(all, |attrs|, lib) <==> lib.known(a.typ);
    hide ReachesEnd;
  }

  lemma {:induction false} LastGroupSearched(attrs: seq<Attribute>, lib: Library)
    ensures LastGroupKnown(Groups(attrs), lib) <==> KnownAtEnd(attrs, lib)
  {
    if attrs != [] {
      hide Known, AddEntry, KnownGroups, KnownAtEnd, LastGroupKnown;
      var n := |attrs| - 1;
      LastGroupSearched(attrs[..n], lib);
      SplitLast(attrs);
      KnownGroupsStep(Groups(attrs[..n]), attrs[n], lib);
      KnownAtEndSnoc(attrs[..n], attrs[n], lib);
    }
  }

  lemma {:induction false} KnownSearched(attrs: seq<Attribute>, lib: Library)
    ensures Known(attrs, lib) == [] <==> forall k :: 0 <= k < |attrs| ==> !lib.known(attrs[k].typ)
  {
    if attrs != [] {
      KnownSearched(attrs[1..], lib);
      assert forall k :: 0 < k < |attrs| ==> attrs[k] == attrs[1..][k - 1];
    }
  }

  lemma SameSnoc<T>(a: seq<T>, x: T, b: seq<T>, y: T)
    requires a + [x] == b + [y]
    ensures a == b && x == y
  {
    assert |a + [x]| == |b + [y]|;
    assert a == (a + [x])[..|a|] && b == (b + [y])[..|b|];
    assert (a + [x])[|a|] == x && (b + [y])[|b|] == y;
  }

  // What joins the last of equal lists keeps them equal, and only then.
  lemma JoinInjective(groups: seq<Group>, others: seq<Group>, a: Attribute)
    requires a.multi && groups != [] && others != []
    ensures AddEntry(groups, a) == AddEntry(others, a) <==> groups == others
  {
    hide AddEntry;
    var rest, g := groups[..|groups| - 1], groups[|groups| - 1];
    var rest', g' := others[..|others| - 1], others[|others| - 1];
    assert groups == rest + [g] && others == rest' + [g'];
    AddToLast(rest, g, a);
    AddToLast(rest', g', a);
    if AddEntry(groups, a) == AddEntry(others, a) {
      SameSnoc(rest, g + [a], rest', g' + [a]);
      SameSnoc(g, a, g', a);
    }
  }

  lemma JoinedIsNotNew(groups: seq<Group>, others: seq<Group>, a: Attribute)
    requires a.multi && groups != [] && groups[|groups| - 1] != []
    ensures AddEntry(groups, a) != others + [[a]]
  {
    hide AddEntry;
    var rest, g := groups[..|groups| - 1], groups[|groups| - 1];
    assert groups == rest + [g];
    AddToLast(rest, g, a);
    if rest + [g + [a]] == others + [[a]] {
      SameSnoc(rest, g + [a], others, [a]);
    }
  }

  lemma {:induction false} LastGroupIsNotEmpty(attrs: seq<Attribute>)
    ensures Groups(attrs) != [] ==> Groups(attrs)[|Groups(attrs)| - 1] != []
  {
  }

  // ----- Which names keep their groups -----

  lemma AllAttachedSnoc(attrs: seq<Attribute>, a: Attribute, lib: Library)
    ensures AllAttached(attrs + [a], lib)
       <==> AllAttached(attrs, lib) && Attached(attrs + [a], |attrs|, lib)
  {
    var all := attrs + [a];
    forall i | 0 <= i < |attrs| ensures Attached(all, i, lib) <==> Attached(attrs, i, lib) {
      AttachedInPrefix(attrs, a, i, lib);
    }
  }

  lemma AttachedInPrefix(attrs: seq<Attribute>, a: Attribute, i: nat, lib: Library)
    requires i < |attrs|
    ensures Attached(attrs + [a], i, lib) <==> Attached(attrs, i, lib)
  {
    hide KnownAtEnd;
    var all := attrs + [a];
    assert all[..i] == attrs[..i];
    assert forall k :: 0 <= k < |attrs| ==> all[k] == attrs[k];
  }

  lemma AttachedAtEnd(attrs: seq<Attribute>, a: Attribute, lib: Library)
    ensures Attached(attrs + [a], |attrs|, lib)
       <==> (a.multi && lib.known(a.typ) ==> LastGroupKnown(Groups(attrs), lib) || Known(attrs, lib) == [])
  {
    hide Known, Groups, LastGroupKnown, KnownAtEnd;
    var all := attrs + [a];
    LastGroupSearched(attrs, lib);
    KnownSearched(attrs, lib);
    assert all[..|attrs|] == attrs && all[|attrs|] == a;
    assert forall k :: 0 <= k < |attrs| ==> all[k] == attrs[k];
  }

  lemma GroupsStep(attrs: seq<Attribute>, a: Attribute, lib: Library)
    ensures Groups(Known(attrs + [a], lib)) == KnownGroups(Groups(attrs + [a]), lib)
       <==> && Groups(Known(attrs, lib)) == KnownGroups(Groups(attrs), lib)
            && Attached(attrs + [a], |attrs|, lib)
  {
    hide Known, Groups, KnownGroups, Attached, LastGroupKnown, AddEntry;
    var known := Known(attrs, lib);
    var built, written := Groups(known), KnownGroups(Groups(attrs), lib);
    AttachedAtEnd(attrs, a, lib);
    KnownSnoc(attrs, a, lib);
    GroupsSnoc(attrs, a);
    KnownGroupsStep(Groups(attrs), a, lib);
    KnownGroupsEmpty(attrs, lib);
    NoGroups(known);
    if lib.known(a.typ) {
      GroupsSnoc(known, a);
      if known == [] || !a.multi {
        AddAlone(built, a);
        AddAlone(written, a);
        if built + [[a]] == written + [[a]] {
          SameSnoc(built, [a], written, [a]);
        }
      } else if LastGroupKnown(Groups(attrs), lib) {
        JoinInjective(built, written, a);
      } else {
        LastGroupIsNotEmpty(known);
        JoinedIsNotNew(built, written, a);
      }
    } else {
      assert known + [] == known;
    }
  }

  // The relative names that are built are those that were written, without their unknown attributes, exactly if every
  // known attribute is attached.
  lemma {:induction false} GroupsAreKept(attrs: seq<Attribute>, lib: Library)
    ensures Groups(Known(attrs, lib)) == KnownGroups(Groups(attrs), lib) <==> AllAttached(attrs, lib)
  {
    if attrs != [] {
      hide Groups, Known, KnownGroups, AllAttached;
      var n := |attrs| - 1;
      SplitLast(attrs);
      GroupsAreKept(attrs[..n], lib);
      GroupsStep(attrs[..n], attrs[n], lib);
      AllAttachedSnoc(attrs[..n], attrs[n], lib);
    }
  }

  // What the parser makes of a printed name: the known attributes, and their relative names if all are attached
  lemma PrintedGroups(attrs: seq<Attribute>, canMulti: bool, lib: Library)
    requires Printable(attrs, canMulti, lib) && (attrs != [] ==> !attrs[0].multi)
    ensures var n := ParseName(['/'] + Print(attrs), canMulti, lib);
            n.Some? && (Groups(n.value) == KnownGroups(Groups(attrs), lib) <==> AllAttached(attrs, lib))
  {
    ParseOfPrint(attrs, canMulti, lib);
    GroupsAreKept(attrs, lib);
  }

  // When all types are known nothing is regrouped.
  lemma {:induction false} AllKnown(attrs: seq<Attribute>, lib: Library)
    requires forall i :: 0 <= i < |attrs| ==> lib.known(attrs[i].typ)
    ensures Known(attrs, lib) == attrs
  {
    if attrs != [] {
      AllKnown(attrs[1..], lib);
    }
  }

  // A name whose second relative name begins with an unknown type: what follows in it joins the first one.
  lemma JoinsWrongName(cn: Attribute, foo: Attribute, ou: Attribute, lib: Library)
    requires !cn.multi && !foo.multi && ou.multi
    requires lib.known(cn.typ) && !lib.known(foo.typ) && lib.known(ou.typ)
    ensures Groups([cn, foo, ou]) == [[cn], [foo, ou]]
    ensures Known([cn, foo, ou], lib) == [cn, ou] && Groups([cn, ou]) == [[cn, ou]]
  {
    hide Known, Groups, AddEntry;
    assert [cn, foo] == [cn] + [foo] && [cn, foo, ou] == [cn, foo] + [ou] && [cn, ou] == [cn] + [ou];
    assert [] + [cn] == [cn];
    NothingKnown(lib);
    NoGroups([]);
    KnownSnoc([], cn, lib);
    KnownSnoc([cn], foo, lib);
    KnownSnoc([cn, foo], ou, lib);
    GroupsSnoc([], cn);
    GroupsSnoc([cn], foo);
    GroupsSnoc([cn, foo], ou);
    GroupsSnoc([cn], ou);
    AddAlone([], cn);
    AddAlone([[cn]], foo);
    AddToLast([[cn]], [foo], ou);
    AddToLast([], [cn], ou);
    assert [] + [[cn]] == [[cn]] && [] + [[cn] + [ou]] == [[cn, ou]];
    assert Groups([cn]) == [[cn]] && Groups([cn, foo]) == [[cn]] + [[foo]];
    assert [foo] + [ou] == [foo, ou] && [[cn]] + [[foo, ou]] == [[cn], [foo, ou]];
  }

  // In /CN=a/foo=b+OU=c with foo unknown the unit ends up in the relative name of the common name.
  lemma UnitJoinsCommonName(lib: Library)
    requires lib.known("CN") && lib.known("OU") && !lib.known("foo")
    requires lib.takes("CN", "a") && lib.takes("OU", "c")
    ensures var cn, foo, ou := Attribute("CN", "a", false), Attribute("foo", "b", false), Attribute("OU", "c", true);
            && ParseName("/CN=a/foo=b+OU=c", true, lib) == Some([cn, ou])
            && Groups([cn, ou]) == [[cn, ou]]
            && Groups([cn, foo, ou]) == [[cn], [foo, ou]]
  {
    hide Known, Groups, AddEntry, ParseName;
    var cn, foo, ou := Attribute("CN", "a", false), Attribute("foo", "b", false), Attribute("OU", "c", true);
    JoinsWrongName(cn, foo, ou, lib);
    PrintedExample(cn, foo, ou);
    ParseOfPrint([cn, foo, ou], true, lib);
  }

  lemma PrintedExample(cn: Attribute, foo: Attribute, ou: Attribute)
    requires cn == Attribute("CN", "a", false) && foo == Attribute("foo", "b", false)
    requires ou == Attribute("OU", "c", true)
    ensures ['/'] + Print([cn, foo, ou]) == "/CN=a/foo=b+OU=c"
  {
    hide Print, Escape, Separator;
    PrintFirst(cn, [foo, ou]);
    PrintFirst(foo, [ou]);
    PrintFirst(ou, []);
    EscapedLetter('a');
    EscapedLetter('b');
    EscapedLetter('c');
    Separators(foo, [ou]);
    Separators(ou, []);
    assert [cn] + [foo, ou] == [cn, foo, ou] && [foo] + [ou] == [foo, ou] && [ou] + [] == [ou];
    assert Print([ou]) == "OU=c";
    assert Print([foo, ou]) == "foo=b+OU=c";
    assert Print([cn, foo, ou]) == "CN=a/foo=b+OU=c";
  }

  lemma PrintFirst(a: Attribute, rest: seq<Attribute>)
    ensures Print([a] + rest) == a.typ + ['='] + Escape(a.value) + Separator(rest) + Print(rest)
    ensures Print([]) == [] && Separator([]) == []
  {
    assert ([a] + rest)[1..] == rest;
  }

  lemma Separators(a: Attribute, rest: seq<Attribute>)
    ensures Separator([a] + rest) == if a.multi then ['+'] else ['/']
  {
  }

  lemma EscapedLetter(c: char)
    requires c == 'a' || c == 'b' || c == 'c'
    ensures Escape([c]) == [c]
  {
    assert [c][1..] == [];
  }
}
