/**
 * The MessageFilters extension API (api/MessageFilters/implementation.js):
 * reading an account's message filters as plain references, and copying
 * every filter of one account to the end of another account's filter list.
 *
 * The host's account registry is a map from account key to account; an
 * account's incoming server and a server's filter list may each be missing.
 * A filter list is a host object that copy extends in place, so it is a
 * class, and two servers may share one list.
 */
module MessageFilters {
  import opened Wrappers

  /** A search term of a host filter; only its text form is read. */
  datatype SearchTerm = SearchTerm(termAsString: string)

  /** A host message filter, as far as it is read here. */
  datatype Filter = Filter(filterName: string, filterDesc: string, searchTerms: seq<SearchTerm>)

  /** The plain reference getForAccount hands out for a filter. */
  datatype FilterRef = FilterRef(name: string, description: string, searchTerms: seq<string>)

  /** A host filter list. */
  class FilterList {
    var filters: seq<Filter>

    /** insertFilterAt: places `f` at position `k`, shifting the rest up. */
    method InsertAt(k: nat, f: Filter)
      requires k <= |filters|
      modifies this
      ensures filters == old(filters[..k]) + [f] + old(filters[k..])
    {
      filters := filters[..k] + [f] + filters[k..];
    }
  }

  datatype IncomingServer = IncomingServer(filterList: Option<FilterList>)

  datatype MailAccount = MailAccount(incomingServer: Option<IncomingServer>)

  /** The host's accounts by key. */
  type Accounts = map<string, MailAccount>

  /** The filter list of the account with this key, when the account, its
      incoming server and the server's filter list all exist. */
  function ListOf(accounts: Accounts, key: string): Option<FilterList>
  {
    if key in accounts && accounts[key].incomingServer.Some? then
      accounts[key].incomingServer.value.filterList
    else None
  }

  function Footprint(list: Option<FilterList>): set<FilterList>
  {
    if list.Some? then {list.value} else {}
  }

  /** The filters of the account with this key; none when its list is missing. */
  function FiltersOf(accounts: Accounts, key: string): seq<Filter>
    reads Footprint(ListOf(accounts, key))
  {
    if ListOf(accounts, key).Some? then ListOf(accounts, key).value.filters else []
  }

  /** The text of each search term, in order. */
  function TermStrings(ts: seq<SearchTerm>): (r: seq<string>)
    ensures |r| == |ts|
    ensures forall i :: 0 <= i < |ts| ==> r[i] == ts[i].termAsString
  {
    if ts == [] then [] else [ts[0].termAsString] + TermStrings(ts[1..])
  }

  /** The reference of one filter. */
  function RefOf(f: Filter): FilterRef
  {
    FilterRef(f.filterName, f.filterDesc, TermStrings(f.searchTerms))
  }

  /** One reference per filter, in index order. */
  function Refs(fs: seq<Filter>): (r: seq<FilterRef>)
    ensures |r| == |fs|
    ensures forall i :: 0 <= i < |fs| ==> r[i] == RefOf(fs[i])
  {
    if fs == [] then [] else Refs(fs[..|fs| - 1]) + [RefOf(fs[|fs| - 1])]
  }

  /** getForAccount: nothing when the account, its incoming server or its
      filter list is missing; otherwise one reference per filter, in order,
      each with its search terms as text. */
  method GetForAccount(accounts: Accounts, key: string) returns (refs: seq<FilterRef>)
    ensures ListOf(accounts, key).None? ==> refs == []
    ensures refs == Refs(FiltersOf(accounts, key))
  {
    refs := [];
    if key in accounts {
      var server := accounts[key].incomingServer;
      if server.Some? {
        var list := server.value.filterList;
        if list.Some? {
          var i := 0;
          while i < |list.value.filters|
            invariant i <= |list.value.filters|
            invariant refs == Refs(list.value.filters[..i])
          {
            assert list.value.filters[..i + 1][..i] == list.value.filters[..i];
            refs := refs + [RefOf(list.value.filters[i])];
            i := i + 1;
          }
          assert list.value.filters[..i] == list.value.filters;
        }
      }
    }
  }

  /** Whether copy finds both filter lists. */
  predicate BothLists(accounts: Accounts, src: string, dest: string)
  {
    ListOf(accounts, src).Some? && ListOf(accounts, dest).Some?
  }

  /** copy, with the number of source filters taken once before the loop:
      when either list is missing nothing changes and the result is 0;
      otherwise the destination list becomes its old filters followed by the
      source filters as they were, existing filters keeping their positions,
      the result is the number of source filters, and a distinct source list
      is left alone. With the count taken once, copying an account's filters
      onto its own list doubles the list instead of never ending. */
  method Copy(accounts: Accounts, src: string, dest: string) returns (copied: nat)
    modifies Footprint(ListOf(accounts, dest))
    ensures !BothLists(accounts, src, dest) ==> copied == 0 && unchanged(Footprint(ListOf(accounts, dest)))
    ensures BothLists(accounts, src, dest) ==>
      copied == |old(FiltersOf(accounts, src))| &&
      FiltersOf(accounts, dest) == old(FiltersOf(accounts, dest)) + old(FiltersOf(accounts, src))
    ensures ListOf(accounts, src) != ListOf(accounts, dest) ==>
      FiltersOf(accounts, src) == old(FiltersOf(accounts, src))
  {
    copied := 0;
    if src in accounts && dest in accounts {
      var srcSrv, destSrv := accounts[src].incomingServer, accounts[dest].incomingServer;
      if srcSrv.Some? && destSrv.Some? {
        var srcList, destList := srcSrv.value.filterList, destSrv.value.filterList;
        if srcList.Some? && destList.Some? {
          var s, d := srcList.value, destList.value;
          ghost var s0, d0 := s.filters, d.filters;
          var offset := |d.filters|;
          var n := |s.filters|;
          while copied < n
            invariant copied <= n == |s0|
            invariant offset == |d0| + copied
            invariant d.filters == d0 + s0[..copied]
            invariant n <= |s.filters| && s.filters[..n] == s0
            invariant s != d ==> s.filters == s0
          {
            var filter := s.filters[copied];
            assert filter == s0[copied];
            d.InsertAt(offset, filter);
            assert d.filters == d0 + s0[..copied] + [s0[copied]];
            assert s0[..copied + 1] == s0[..copied] + [s0[copied]];
            offset := offset + 1;
            copied := copied + 1;
          }
          assert s0[..copied] == s0;
        }
      }
    }
  }

  /** The filter list after `k` turns of copy's loop as written, when source
      and destination are one list that started as `l0`: each turn inserts
      the filter at `copied` at the end, where `offset` has reached. */
  function AliasedAfter(l0: seq<Filter>, k: nat): (l: seq<Filter>)
    requires |l0| > 0
    ensures |l| == |l0| + k
  {
    if k == 0 then l0
    else
      var p := AliasedAfter(l0, k - 1);
      p[..|l0| + k - 1] + [p[k - 1]] + p[|l0| + k - 1..]
  }

  /** Copy as written, on one shared non-empty list: the loop re-reads the
      growing list's length, so after any number of turns the guard
      `copied < filterCount` still holds, and the list is the old filters
      repeated over and over, each filter equal to the one |l0| places
      before it. */
  lemma {:induction false} AliasedCopyNeverEnds(l0: seq<Filter>, k: nat)
    requires |l0| > 0
    ensures k < |AliasedAfter(l0, k)|
    ensures AliasedAfter(l0, k)[..|l0|] == l0
    ensures forall i :: |l0| <= i < |AliasedAfter(l0, k)| ==> AliasedAfter(l0, k)[i] == AliasedAfter(l0, k)[i - |l0|]
  {
    if k > 0 {
      AliasedCopyNeverEnds(l0, k - 1);
      var p := AliasedAfter(l0, k - 1);
      assert p[..|l0| + k - 1] == p;
      assert AliasedAfter(l0, k) == p + [p[k - 1]];
    }
  }
}
