/**
 * CompareMsgFilters (background/background.js): the filters of a source
 * account, each marked with whether the destination account already has a
 * filter that looks the same. Filters carry no identifier, so "the same"
 * means the same name, description and joined search terms.
 */
module FilterCompare {
  import opened Wrappers
  import opened MessageFilters

  /** Array.prototype.join with its default separator ",". */
  function Join(ts: seq<string>): string
  {
    if ts == [] then "" else if |ts| == 1 then ts[0] else ts[0] + "," + Join(ts[1..])
  }

  /** isSame: equal names, descriptions and joined search terms. */
  predicate IsSame(a: FilterRef, b: FilterRef)
  {
    a.name == b.name && a.description == b.description && Join(a.searchTerms) == Join(b.searchTerms)
  }

  /** isSame is an equivalence: reflexive, symmetric and transitive. */
  lemma IsSameEquivalence(a: FilterRef, b: FilterRef, c: FilterRef)
    ensures IsSame(a, a)
    ensures IsSame(a, b) ==> IsSame(b, a)
    ensures IsSame(a, b) && IsSame(b, c) ==> IsSame(a, c)
  {
  }

  /** Joining loses the boundaries between terms: filters whose term lists
      differ can still be the same to isSame. */
  lemma JoinNotInjective(name: string, description: string)
    ensures IsSame(FilterRef(name, description, ["a,b"]), FilterRef(name, description, ["a", "b"]))
    ensures IsSame(FilterRef(name, description, [""]), FilterRef(name, description, []))
  {
    assert Join(["a", "b"]) == "a" + "," + Join(["b"]);
  }

  /** Array.prototype.find: the first filter isSame to `f`, if any. */
  function Find(fs: seq<FilterRef>, f: FilterRef): (r: Option<FilterRef>)
    ensures r.Some? ==> r.value in fs && IsSame(f, r.value)
    ensures r.None? <==> forall g :: g in fs ==> !IsSame(f, g)
  {
    if fs == [] then None
    else if IsSame(f, fs[0]) then Some(fs[0])
    else Find(fs[1..], f)
  }

  /** A source filter reference with its conflict mark. */
  datatype MarkedFilter = MarkedFilter(ref: FilterRef, conflict: bool)

  /** execute's mapping: the source filters, in order, each marked as in
      conflict exactly when some destination filter is the same. */
  function Execute(srcFilters: seq<FilterRef>, destFilters: seq<FilterRef>): (r: seq<MarkedFilter>)
    ensures |r| == |srcFilters|
    ensures forall i :: 0 <= i < |r| ==>
      r[i].ref == srcFilters[i] &&
      (r[i].conflict <==> exists g :: g in destFilters && IsSame(srcFilters[i], g))
  {
    seq(|srcFilters|, i requires 0 <= i < |srcFilters| => MarkedFilter(srcFilters[i], Find(destFilters, srcFilters[i]).Some?))
  }

  /** Against its own list every filter is in conflict. */
  lemma ExecuteSelf(fs: seq<FilterRef>)
    ensures forall i :: 0 <= i < |fs| ==> Execute(fs, fs)[i].conflict
  {
    forall i | 0 <= i < |fs| ensures Execute(fs, fs)[i].conflict {
      IsSameEquivalence(fs[i], fs[i], fs[i]);
    }
  }

  /** Some source filter conflicts with the destination exactly when some
      destination filter would conflict with the source. */
  lemma {:induction false} ExecuteSymmetric(a: seq<FilterRef>, b: seq<FilterRef>)
    ensures (exists i :: 0 <= i < |a| && Execute(a, b)[i].conflict) <==>
            (exists j :: 0 <= j < |b| && Execute(b, a)[j].conflict)
  {
    if exists i :: 0 <= i < |a| && Execute(a, b)[i].conflict {
      var i :| 0 <= i < |a| && Execute(a, b)[i].conflict;
      var g :| g in b && IsSame(a[i], g);
      var j :| 0 <= j < |b| && b[j] == g;
      IsSameEquivalence(a[i], g, g);
      assert Execute(b, a)[j].conflict;
    }
    if exists j :: 0 <= j < |b| && Execute(b, a)[j].conflict {
      var j :| 0 <= j < |b| && Execute(b, a)[j].conflict;
      var g :| g in a && IsSame(b[j], g);
      var i :| 0 <= i < |a| && a[i] == g;
      IsSameEquivalence(b[j], g, g);
      assert Execute(a, b)[i].conflict;
    }
  }

  /** CompareMsgFilters.execute: the source account's filter references in
      order, each marked in conflict exactly when the destination account
      has a filter that isSame; an account without a filter list has no
      filters. */
  method CompareFilters(accounts: Accounts, source: string, destination: string) returns (r: seq<MarkedFilter>)
    ensures |r| == |FiltersOf(accounts, source)|
    ensures forall i :: 0 <= i < |r| ==>
      r[i].ref == RefOf(FiltersOf(accounts, source)[i]) &&
      (r[i].conflict <==> exists j :: 0 <= j < |FiltersOf(accounts, destination)| &&
                                      IsSame(r[i].ref, RefOf(FiltersOf(accounts, destination)[j])))
  {
    var srcFilters := GetForAccount(accounts, source);
    var destFilters := GetForAccount(accounts, destination);
    r := Execute(srcFilters, destFilters);
    ExecuteRefs(FiltersOf(accounts, source), FiltersOf(accounts, destination));
  }

  /** execute on the references of two filter lists, stated on the filters. */
  lemma ExecuteRefs(src: seq<Filter>, dest: seq<Filter>)
    ensures |Execute(Refs(src), Refs(dest))| == |src|
    ensures forall i :: 0 <= i < |src| ==>
      Execute(Refs(src), Refs(dest))[i].ref == RefOf(src[i]) &&
      (Execute(Refs(src), Refs(dest))[i].conflict <==>
         exists j :: 0 <= j < |dest| && IsSame(RefOf(src[i]), RefOf(dest[j])))
  {
    var r := Execute(Refs(src), Refs(dest));
    forall i | 0 <= i < |src|
      ensures r[i].conflict ==> exists j :: 0 <= j < |dest| && IsSame(RefOf(src[i]), RefOf(dest[j]))
    {
      if r[i].conflict {
        SameAt(Refs(dest), RefOf(src[i]));
      }
    }
  }

  /** A filter that is the same as some member of `fs` is the same as the
      member at some index. */
  lemma SameAt(fs: seq<FilterRef>, f: FilterRef)
    requires exists g :: g in fs && IsSame(f, g)
    ensures exists j :: 0 <= j < |fs| && IsSame(f, fs[j])
  {
    var g :| g in fs && IsSame(f, g);
    var j :| 0 <= j < |fs| && fs[j] == g;
  }
}
