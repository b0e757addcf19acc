/** Choosing mutators: groups are expanded to the mutators they stand for, ignored ones are taken out. */
module Mutators {

  type Groups = map<string, seq<string>>

  // ---------- Expansion, declaratively ----------

  // A chain of groups, each a member of the one before, that ends at something that is no group.
  ghost predicate Chain(mapping: Groups, path: seq<string>, group: string, leaf: string) {
    && path != [] && path[0] == group && path[|path| - 1] == leaf && leaf !in mapping
    && forall k: nat | k + 1 < |path| :: path[k] in mapping && path[k + 1] in mapping[path[k]]
  }

  ghost predicate StandsFor(mapping: Groups, group: string, leaf: string) {
    exists path: seq<string> :: Chain(mapping, path, group, leaf)
  }

  ghost predicate Expansion(mapping: Groups, groups: seq<string>, leaf: string) {
    exists group :: group in groups && StandsFor(mapping, group, leaf)
  }

  lemma ChainStart(mapping: Groups, path: seq<string>, group: string, leaf: string)
    requires Chain(mapping, path, group, leaf)
    ensures |path| > 1 ==> group in mapping
  {
    if |path| > 1 { assert path[0] in mapping && path[0 + 1] in mapping[path[0]]; }
  }

  lemma LeafStandsForItself(mapping: Groups, group: string, leaf: string)
    requires group !in mapping
    ensures StandsFor(mapping, group, leaf) <==> leaf == group
  {
    if StandsFor(mapping, group, leaf) {
      var path :| Chain(mapping, path, group, leaf);
      ChainStart(mapping, path, group, leaf);
    }
    assert leaf == group ==> Chain(mapping, [group], group, leaf);
  }

  lemma GroupStandsForMembers(mapping: Groups, group: string, leaf: string)
    requires group in mapping
    ensures StandsFor(mapping, group, leaf) <==> Expansion(mapping, mapping[group], leaf)
  {
    if StandsFor(mapping, group, leaf) {
      var path :| Chain(mapping, path, group, leaf);
      assert path[0] == group;
      assert |path| > 1;
      assert Chain(mapping, path[1..], path[1], leaf);
    }
    if Expansion(mapping, mapping[group], leaf) {
      var member :| member in mapping[group] && StandsFor(mapping, member, leaf);
      var path :| Chain(mapping, path, member, leaf);
      var longer := [group] + path;
      forall k: nat | k + 1 < |longer| ensures longer[k] in mapping && longer[k + 1] in mapping[longer[k]] {
        if k > 0 { assert path[k - 1] == longer[k] && path[k - 1 + 1] == longer[k + 1]; }
      }
      assert Chain(mapping, longer, group, leaf);
    }
  }

  lemma ExpansionOfMore(mapping: Groups, groups: seq<string>, more: string, leaf: string)
    ensures Expansion(mapping, groups + [more], leaf) <==>
              Expansion(mapping, groups, leaf) || StandsFor(mapping, more, leaf)
  {
    if StandsFor(mapping, more, leaf) { assert more in groups + [more]; }
    if Expansion(mapping, groups, leaf) {
      var group :| group in groups && StandsFor(mapping, group, leaf);
      assert group in groups + [more];
    }
  }

  /** Expanding what has been expanded changes nothing. */
  lemma ExpansionIsIdempotent(mapping: Groups, groups: seq<string>, expanded: seq<string>, leaf: string)
    requires forall s :: s in expanded <==> Expansion(mapping, groups, s)
    ensures Expansion(mapping, expanded, leaf) <==> leaf in expanded
  {
    forall s | s in expanded ensures s !in mapping {
      var group :| group in groups && StandsFor(mapping, group, s);
      var path :| Chain(mapping, path, group, s);
    }
    if Expansion(mapping, expanded, leaf) {
      var s :| s in expanded && StandsFor(mapping, s, leaf);
      LeafStandsForItself(mapping, s, leaf);
    }
    if leaf in expanded { LeafStandsForItself(mapping, leaf, leaf); }
  }

  // ---------- expandGroups ----------

  // No group contains itself, directly or not: members that are groups have a lower rank.
  ghost predicate Ranked(mapping: Groups, rank: map<string, nat>) {
    && (forall g | g in mapping :: g in rank)
    && forall g, m | g in mapping && m in mapping[g] && m in mapping :: rank[m] < rank[g]
  }

  ghost predicate Acyclic(mapping: Groups) { exists rank: map<string, nat> :: Ranked(mapping, rank) }

  ghost predicate Below(mapping: Groups, rank: map<string, nat>, groups: seq<string>, bound: nat)
    requires Ranked(mapping, rank)
  {
    forall g | g in groups && g in mapping :: rank[g] < bound
  }

  // Adds the expansion of groups to expanded.
  method ExpandGroups(groups: seq<string>, mapping: Groups, expanded: set<string>, ghost rank: map<string, nat>,
                      ghost bound: nat)
    returns (result: set<string>)
    requires Ranked(mapping, rank) && Below(mapping, rank, groups, bound)
    ensures forall s :: s in result <==> s in expanded || Expansion(mapping, groups, s)
    decreases bound
  {
    result := expanded;
    for i := 0 to |groups|
      invariant forall s :: s in result <==> s in expanded || Expansion(mapping, groups[..i], s)
    {
      var group := groups[i];
      ghost var was := result;
      if group !in mapping {
        result := result + {group};
        forall s
          ensures s in result <==> s in was || StandsFor(mapping, group, s)
        {
          LeafStandsForItself(mapping, group, s);
        }
      } else {
        result := ExpandGroups(mapping[group], mapping, result, rank, rank[group]);
        forall s
          ensures s in result <==> s in was || StandsFor(mapping, group, s)
        {
          GroupStandsForMembers(mapping, group, s);
        }
      }
      assert groups[..i + 1] == groups[..i] + [group];
      forall s ensures s in result <==> s in expanded || Expansion(mapping, groups[..i + 1], s) {
        ExpansionOfMore(mapping, groups[..i], group, s);
      }
    }
    assert groups[..|groups|] == groups;
  }

  ghost function HighestRank(rank: map<string, nat>, groups: seq<string>): (n: nat)
    ensures forall g | g in groups && g in rank :: rank[g] < n
  {
    if groups == [] then 0
    else
      var n := HighestRank(rank, groups[1..]);
      if groups[0] in rank && rank[groups[0]] >= n then rank[groups[0]] + 1 else n
  }

  method Expand(groups: seq<string>, mapping: Groups) returns (result: set<string>)
    requires Acyclic(mapping)
    ensures forall s :: s in result <==> Expansion(mapping, groups, s)
  {
    ghost var rank :| Ranked(mapping, rank);
    result := ExpandGroups(groups, mapping, {}, rank, HighestRank(rank, groups));
  }

  // ---------- The order of strings ----------

  predicate Less(a: string, b: string) {
    b != [] && (a == [] || a[0] < b[0] || (a[0] == b[0] && Less(a[1..], b[1..])))
  }

  lemma {:induction false} LessTotal(a: string, b: string)
    ensures Less(a, b) || a == b || Less(b, a)
    ensures !(Less(a, b) && Less(b, a)) && !Less(a, a)
    decreases |a|
  {
    if a != [] {
      if b != [] {
        LessTotal(a[1..], b[1..]);
        assert a == [a[0]] + a[1..] && b == [b[0]] + b[1..];
      }
      LessTotal(a[1..], a[1..]);
    }
  }

  lemma {:induction false} LessTransitive(a: string, b: string, c: string)
    requires Less(a, b) && Less(b, c)
    ensures Less(a, c)
    decreases |a|
  {
    if a != [] && a[0] == b[0] == c[0] { LessTransitive(a[1..], b[1..], c[1..]); }
  }

  ghost predicate StrictlySorted(s: seq<string>) { forall i, j | 0 <= i < j < |s| :: Less(s[i], s[j]) }

  /** The order is that of a dictionary: a proper prefix comes first, otherwise the first character that
      differs decides. */
  lemma {:induction false} LessIsDictionary(a: string, b: string)
    ensures Less(a, b) <==> a < b || exists k: nat :: DiffersAt(a, b, k) && a[k] < b[k]
    decreases |a|
  {
    if a != [] && b != [] && a[0] == b[0] {
      LessIsDictionary(a[1..], b[1..]);
      assert a == [a[0]] + a[1..] && b == [b[0]] + b[1..];
      if k: nat :| DiffersAt(a[1..], b[1..], k) && a[1..][k] < b[1..][k] {
        assert a[..k + 1] == [a[0]] + a[1..][..k] && b[..k + 1] == [b[0]] + b[1..][..k];
        assert DiffersAt(a, b, k + 1);
      }
      if k: nat :| DiffersAt(a, b, k) && a[k] < b[k] {
        assert a[1..][..k - 1] == a[..k][1..] && b[1..][..k - 1] == b[..k][1..];
        assert DiffersAt(a[1..], b[1..], k - 1);
      }
      assert a < b <==> a[1..] < b[1..];
    } else if a != [] && b != [] {
      assert a[0] < b[0] ==> DiffersAt(a, b, 0);
    }
  }

  ghost predicate DiffersAt(a: string, b: string, k: nat) { k < |a| && k < |b| && a[..k] == b[..k] && a[k] != b[k] }

  // std::sort, by insertion.
  method InsertSorted(s: seq<string>, x: string) returns (r: seq<string>)
    requires StrictlySorted(s) && x !in s
    ensures StrictlySorted(r) && forall y :: y in r <==> y in s || y == x
  {
    var i := 0;
    while i < |s| && Less(s[i], x)
      invariant 0 <= i <= |s| && forall j | 0 <= j < i :: Less(s[j], x)
    {
      i := i + 1;
    }
    r := s[..i] + [x] + s[i..];
    if i < |s| {
      LessTotal(s[i], x);
      forall j | i < j < |s| ensures Less(x, s[j]) { LessTransitive(x, s[i], s[j]); }
    }
    forall y ensures y in r <==> y in s || y == x { assert s == s[..i] + s[i..]; }
  }

  method Sorted(names: set<string>) returns (r: seq<string>)
    ensures StrictlySorted(r) && forall y :: y in r <==> y in names
  {
    var todo := names;
    r := [];
    while todo != {}
      invariant todo <= names && StrictlySorted(r) && forall y :: y in r <==> y in names && y !in todo
      decreases |todo|
    {
      var x :| x in todo;
      r := InsertSorted(r, x);
      todo := todo - {x};
    }
  }

  // ---------- MutatorsFactory::mutators ----------

  datatype Mutator = Mutator(id: string)

  class Factory {
    const groupsMapping: Groups
    const known: set<string>
    var mutatorsMapping: map<string, Mutator>

    constructor (mapping: Groups, ids: set<string>)
      ensures groupsMapping == mapping && known == ids
    {
      groupsMapping, known, mutatorsMapping := mapping, ids, map[];
    }

    // All mutators are created again.
    method Init()
      modifies this
      ensures mutatorsMapping.Keys == known && forall id | id in known :: mutatorsMapping[id] == Mutator(id)
    {
      mutatorsMapping := map id | id in known :: Mutator(id);
    }

    /** The mutators whose ids are in the expansion of groups (by default, of the group cxx_default) but
        not in that of ignoreGroups, in strictly ascending order; and the ids that are of no mutator. */
    method Choose(groups: seq<string>, ignoreGroups: seq<string>) returns (chosen: seq<Mutator>, unknown: seq<string>)
      requires Acyclic(groupsMapping)
      modifies this
      ensures forall i, j | 0 <= i < j < |chosen| :: Less(chosen[i].id, chosen[j].id)
      ensures forall id :: Mutator(id) in chosen <==> id in known && Wanted(groups, ignoreGroups, id)
      ensures StrictlySorted(unknown) && forall id :: id in unknown <==>
                id !in known && Wanted(groups, ignoreGroups, id)
      ensures forall id :: id in mutatorsMapping <==> id in known && !Wanted(groups, ignoreGroups, id)
    {
      Init();
      var expandedIgnoreGroups := Expand(ignoreGroups, groupsMapping);
      var expandedGroups := Expand(if groups == [] then ["cxx_default"] else groups, groupsMapping);
      expandedGroups := expandedGroups - expandedIgnoreGroups;
      var sortedGroups := Sorted(expandedGroups);
      chosen, unknown := [], [];
      for i := 0 to |sortedGroups|
        invariant forall a, b | 0 <= a < b < |chosen| :: Less(chosen[a].id, chosen[b].id)
        invariant StrictlySorted(unknown)
        invariant forall id :: Mutator(id) in chosen <==> id in known && id in sortedGroups[..i]
        invariant forall id :: id in unknown <==> id !in known && id in sortedGroups[..i]
        invariant forall id :: id in mutatorsMapping <==> id in known && id !in sortedGroups[..i]
        invariant forall id | id in mutatorsMapping :: mutatorsMapping[id] == Mutator(id)
      {
        var group := sortedGroups[i];
        NotSeen(sortedGroups, i);
        assert forall id :: id in sortedGroups[..i + 1] <==> id in sortedGroups[..i] || id == group;
        if group !in mutatorsMapping {
          unknown := unknown + [group];
        } else {
          forall a | 0 <= a < |chosen| ensures Less(chosen[a].id, group) { assert Mutator(chosen[a].id) in chosen; }
          chosen := chosen + [mutatorsMapping[group]];
          mutatorsMapping := mutatorsMapping - {group};
        }
      }
      assert sortedGroups[..|sortedGroups|] == sortedGroups;
    }

    ghost predicate Wanted(groups: seq<string>, ignoreGroups: seq<string>, id: string) {
      Expansion(groupsMapping, if groups == [] then ["cxx_default"] else groups, id)
      && !Expansion(groupsMapping, ignoreGroups, id)
    }
  }

  // In a strictly ascending list, everything before i is less than what stands at i.
  lemma NotSeen(s: seq<string>, i: nat)
    requires StrictlySorted(s) && i < |s|
    ensures s[i] !in s[..i] && forall x | x in s[..i] :: Less(x, s[i])
  {
    forall x | x in s[..i] ensures Less(x, s[i]) && x != s[i] {
      var k :| 0 <= k < i && s[k] == x;
      LessTotal(x, x);
    }
  }
}
