/**
 * The firewall monitor's two append-only caches: filter ids with their
 * display names (`lookup_or_add_filter`) and security identifiers with
 * their string form and account (`lookup_or_add_SID`). Both scan their list
 * in order and, on a miss, resolve the key once through the native API and
 * append one entry. The native resolvers are parameters of the model.
 */
module FwCache {
  import opened Common

  /** The first index holding `k`, if any. */
  function IndexOf<K(==)>(keys: seq<K>, k: K): (r: Option<nat>)
    ensures r.Some? ==> r.value < |keys| && keys[r.value] == k && forall j | 0 <= j < r.value :: keys[j] != k
    ensures r.None? <==> k !in keys
  {
    if keys == [] then None
    else if keys[0] == k then Some(0)
    else match IndexOf(keys[1..], k)
      case None => None
      case Some(i) => Some(i + 1)
  }

  /** No key occurs twice. */
  predicate Unique<K(==)>(keys: seq<K>)
  {
    forall i, j | 0 <= i < j < |keys| :: keys[i] != keys[j]
  }

  /** In a list without repeated keys, the entry found is the only one with that key. */
  lemma UniqueIndex<K>(keys: seq<K>, k: K, i: nat)
    requires Unique(keys) && i < |keys| && keys[i] == k
    ensures IndexOf(keys, k) == Some(i)
  {
  }

  // -------------------------------------------------------------- filters

  /** `struct filter_entry`: a 64-bit filter id and its display name. */
  datatype FilterEntry = FilterEntry(value: nat, name: string)

  /** The static entry every id 0 maps to. */
  const NULL_FILTER: FilterEntry := FilterEntry(0, "NULL")

  function FilterKeys(entries: seq<FilterEntry>): (keys: seq<nat>)
    ensures |keys| == |entries| && forall i | 0 <= i < |entries| :: keys[i] == entries[i].value
  {
    seq(|entries|, i requires 0 <= i < |entries| => entries[i].value)
  }

  /** What a cache of filters may hold: distinct, non-zero ids. */
  predicate FilterCacheOk(entries: seq<FilterEntry>)
  {
    Unique(FilterKeys(entries)) && 0 !in FilterKeys(entries)
  }

  /**
   * `lookup_or_add_filter(filter)` on the list `entries`, where
   * `resolve(filter)` is the display name `FwpmFilterGetById0` yields, if
   * it succeeds: the new list and the entry returned.
   */
  function LookupFilter(entries: seq<FilterEntry>, filter: nat, resolve: nat -> Option<string>): (r: (seq<FilterEntry>, FilterEntry))
  {
    if filter == 0 then (entries, NULL_FILTER)
    else match IndexOf(FilterKeys(entries), filter)
      case Some(i) => (entries, entries[i])
      case None =>
        var fe := FilterEntry(filter, match resolve(filter) case Some(n) => n case None => "?");
        (entries + [fe], fe)
  }

  /**
   * The cache rules: id 0 gives the `"NULL"` entry and leaves the list; a
   * cached id gives its entry and leaves the list; an unknown id appends
   * exactly one entry (named `"?"` unless resolution succeeds), keeping
   * every earlier entry and the ids distinct.
   */
  lemma LookupFilterRules(entries: seq<FilterEntry>, filter: nat, resolve: nat -> Option<string>)
    requires FilterCacheOk(entries)
    ensures var (after, fe) := LookupFilter(entries, filter, resolve);
      && FilterCacheOk(after)
      && (filter == 0 ==> after == entries && fe == NULL_FILTER)
      && (filter != 0 ==> fe.value == filter && fe in after)
      && (filter in FilterKeys(entries) ==> after == entries)
      && (filter != 0 && filter !in FilterKeys(entries) ==>
            after == entries + [fe] && (resolve(filter).None? ==> fe.name == "?")
            && (resolve(filter).Some? ==> fe.name == resolve(filter).value))
  {
    var (after, fe) := LookupFilter(entries, filter, resolve);
    if filter != 0 && filter !in FilterKeys(entries) {
      assert FilterKeys(after) == FilterKeys(entries) + [filter];
    }
  }

  /** Looking the same id up again finds the entry the first lookup returned. */
  lemma LookupFilterIdempotent(entries: seq<FilterEntry>, filter: nat, resolve: nat -> Option<string>, resolve2: nat -> Option<string>)
    requires FilterCacheOk(entries)
    ensures var (after, fe) := LookupFilter(entries, filter, resolve);
            LookupFilter(after, filter, resolve2) == (after, fe)
  {
    var (after, fe) := LookupFilter(entries, filter, resolve);
    LookupFilterRules(entries, filter, resolve);
    if filter != 0 {
      var i :| 0 <= i < |after| && after[i] == fe;
      assert FilterKeys(after)[i] == filter;
      UniqueIndex(FilterKeys(after), filter, i);
    }
  }

  /** `fw_filter_list` and the ids handed to the native resolver. */
  class FilterCache {
    var entries: seq<FilterEntry>
    var resolved: seq<nat>

    ghost predicate Valid()
      reads this
    {
      FilterCacheOk(entries)
    }

    constructor ()
      ensures Valid() && entries == [] && resolved == []
    {
      entries, resolved := [], [];
    }

    /** The scan of `lookup_or_add_filter`. */
    method Find(filter: nat) returns (r: Option<nat>)
      ensures r == IndexOf(FilterKeys(entries), filter)
    {
      var i := 0;
      while i < |entries|
        invariant 0 <= i <= |entries|
        invariant filter !in FilterKeys(entries)[..i]
      {
        if entries[i].value == filter {
          assert forall j | 0 <= j < i :: FilterKeys(entries)[j] == FilterKeys(entries)[..i][j];
          return Some(i);
        }
        assert FilterKeys(entries)[..i + 1] == FilterKeys(entries)[..i] + [entries[i].value];
        i := i + 1;
      }
      assert FilterKeys(entries)[..i] == FilterKeys(entries);
      return None;
    }

    /** `lookup_or_add_filter`. */
    method LookupOrAdd(filter: nat, resolve: nat -> Option<string>) returns (fe: FilterEntry)
      requires Valid()
      modifies this
      ensures Valid()
      ensures (entries, fe) == LookupFilter(old(entries), filter, resolve)
      ensures resolved == old(resolved) + if filter != 0 && filter !in FilterKeys(old(entries)) then [filter] else []
    {
      LookupFilterRules(entries, filter, resolve);
      if filter == 0 {
        return NULL_FILTER;
      }
      var found := Find(filter);
      if found.Some? {
        return entries[found.value];
      }
      var name := "?";
      var r := resolve(filter);
      resolved := resolved + [filter];
      if r.Some? {
        name := r.value;
      }
      fe := FilterEntry(filter, name);
      entries := entries + [fe];
    }
  }

  // ----------------------------------------------------------------- SIDs

  /** A security identifier, compared by value as `EqualSid` does. */
  type Sid = seq<nat>

  /**
   * `struct SID_entry`: a copy of the SID, its string form (NULL when the
   * conversion fails) and the account and domain names.
   */
  datatype SidEntry = SidEntry(sid: Sid, sidStr: Option<string>, account: string, domain: string)

  function SidKeys(entries: seq<SidEntry>): (keys: seq<Sid>)
    ensures |keys| == |entries| && forall i | 0 <= i < |entries| :: keys[i] == entries[i].sid
  {
    seq(|entries|, i requires 0 <= i < |entries| => entries[i].sid)
  }

  /**
   * `lookup_or_add_SID(sid)` on `entries`: `sidString` stands for
   * `ConvertSidToStringSid` and `accountOf` for `lookup_account_SID`
   * (the account and domain it leaves in the new entry).
   */
  function LookupSid(entries: seq<SidEntry>, sid: Sid, sidString: Sid -> Option<string>,
                     accountOf: Sid -> (string, string)): (r: (seq<SidEntry>, SidEntry))
  {
    match IndexOf(SidKeys(entries), sid)
    case Some(i) => (entries, entries[i])
    case None =>
      var se := SidEntry(sid, sidString(sid), accountOf(sid).0, accountOf(sid).1);
      (entries + [se], se)
  }

  /**
   * A cached SID gives its entry and leaves the list; a new one appends
   * exactly one entry for it; the SIDs stay distinct and earlier entries
   * stay as they were.
   */
  lemma LookupSidRules(entries: seq<SidEntry>, sid: Sid, sidString: Sid -> Option<string>, accountOf: Sid -> (string, string))
    requires Unique(SidKeys(entries))
    ensures var (after, se) := LookupSid(entries, sid, sidString, accountOf);
      && Unique(SidKeys(after))
      && se.sid == sid && se in after
      && |entries| <= |after| <= |entries| + 1 && after[..|entries|] == entries
      && (sid in SidKeys(entries) <==> after == entries)
      && (sid !in SidKeys(entries) ==> se == SidEntry(sid, sidString(sid), accountOf(sid).0, accountOf(sid).1))
  {
    var (after, se) := LookupSid(entries, sid, sidString, accountOf);
    if sid !in SidKeys(entries) {
      assert SidKeys(after) == SidKeys(entries) + [sid];
    }
  }

  /** A second lookup of the same SID hits, whatever the resolvers answer then. */
  lemma LookupSidIdempotent(entries: seq<SidEntry>, sid: Sid, sidString: Sid -> Option<string>, accountOf: Sid -> (string, string),
                            sidString2: Sid -> Option<string>, accountOf2: Sid -> (string, string))
    requires Unique(SidKeys(entries))
    ensures var (after, se) := LookupSid(entries, sid, sidString, accountOf);
            LookupSid(after, sid, sidString2, accountOf2) == (after, se)
  {
    var (after, se) := LookupSid(entries, sid, sidString, accountOf);
    LookupSidRules(entries, sid, sidString, accountOf);
    var i :| 0 <= i < |after| && after[i] == se;
    assert SidKeys(after)[i] == sid;
    UniqueIndex(SidKeys(after), sid, i);
  }

  /** `fw_SID_list` and the SIDs handed to the native resolvers. */
  class SidCache {
    var entries: seq<SidEntry>
    var resolved: seq<Sid>

    ghost predicate Valid()
      reads this
    {
      Unique(SidKeys(entries))
    }

    constructor ()
      ensures Valid() && entries == [] && resolved == []
    {
      entries, resolved := [], [];
    }

    /** The scan of `lookup_or_add_SID`. */
    method Find(sid: Sid) returns (r: Option<nat>)
      ensures r == IndexOf(SidKeys(entries), sid)
    {
      var i := 0;
      while i < |entries|
        invariant 0 <= i <= |entries|
        invariant sid !in SidKeys(entries)[..i]
      {
        if entries[i].sid == sid {
          assert forall j | 0 <= j < i :: SidKeys(entries)[j] == SidKeys(entries)[..i][j];
          return Some(i);
        }
        assert SidKeys(entries)[..i + 1] == SidKeys(entries)[..i] + [entries[i].sid];
        i := i + 1;
      }
      assert SidKeys(entries)[..i] == SidKeys(entries);
      return None;
    }

    /** `lookup_or_add_SID`. */
    method LookupOrAdd(sid: Sid, sidString: Sid -> Option<string>, accountOf: Sid -> (string, string)) returns (se: SidEntry)
      requires Valid()
      modifies this
      ensures Valid()
      ensures (entries, se) == LookupSid(old(entries), sid, sidString, accountOf)
      ensures resolved == old(resolved) + if sid !in SidKeys(old(entries)) then [sid] else []
    {
      LookupSidRules(entries, sid, sidString, accountOf);
      var found := Find(sid);
      if found.Some? {
        return entries[found.value];
      }
      resolved := resolved + [sid];
      var (account, domain) := accountOf(sid);
      se := SidEntry(sid, sidString(sid), account, domain);
      entries := entries + [se];
    }
  }
}
