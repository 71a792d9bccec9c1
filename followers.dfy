/**
 * The analysis of an Instagram data export in cek_followers_ig.py: the
 * extraction of usernames from a parsed export file, the classification of
 * two username sets into mutuals, accounts that do not follow back, and fans,
 * and the guard that stops the analysis when a file could not be loaded.
 */
module FollowersAnalysis {
  import opened Wrappers
  import opened Json
  import opened StringOrder

  /** The keys `run_analysis` passes for the two export files. */
  const FollowingDataKey: string := "relationships_following"
  const FollowersDataKey: string := ""
  const UsernameListKey: string := "string_list_data"

  // ---------------------------------------------------------------------
  // Selecting the record list
  // ---------------------------------------------------------------------

  /**
   * The items `for item in data_list` visits, or `None` where Python raises
   * instead: a number, a boolean or `null` is not iterable, and a non-empty
   * string or dict yields strings, which have no `.get`. An empty string or
   * dict is iterated without any item being visited.
   */
  function Items(j: Json): (r: Option<seq<Json>>)
    ensures j.JArray? ==> r == Some(j.items)
    ensures !j.JArray? ==> (r.Some? <==> !Truthy(j) && (j.JObject? || j.JString?))
    ensures r.Some? && !j.JArray? ==> r.value == []
  {
    match j
    case JArray(items) => Some(items)
    case JObject(fields) => if fields == map[] then Some([]) else None
    case JString(s) => if s == "" then Some([]) else None
    case _ => None
  }

  /**
   * `data.get(data_key, [])` when `data_key` is non-empty, `data` itself
   * otherwise, as the record list to iterate. `None` where Python raises
   * (a `.get` on a document that is not a dict, or a list that cannot be
   * iterated as records).
   */
  function RecordList(doc: Json, dataKey: string): (r: Option<seq<Json>>)
    ensures dataKey != "" && doc.JObject? && dataKey in doc.fields
            ==> r == RecordList(doc.fields[dataKey], "")
    ensures dataKey != "" && doc.JObject? && dataKey !in doc.fields ==> r == Some([])
    ensures dataKey != "" && !doc.JObject? ==> r.None?
    ensures doc.JArray? && dataKey == "" ==> r == Some(doc.items)
  {
    if dataKey != "" then
      match doc
      case JObject(fields) => if dataKey in fields then Items(fields[dataKey]) else Some([])
      case _ => None
    else Items(doc)
  }

  // ---------------------------------------------------------------------
  // One record
  // ---------------------------------------------------------------------

  /**
   * What the set comprehension does with one record: skips it, keeps a
   * username, stores a value that is not a string (a truthy number or
   * `true`), raises the `KeyError` that the loader catches, or raises an
   * exception that nothing catches.
   */
  datatype Step = Skipped | Kept(name: string) | NonString | KeyError | Raises

  /**
   * Python's evaluation of `item.get(list_key) and item.get(list_key)[0].get('value')`
   * followed, when that is truthy, by `item.get(list_key, [{}])[0].get('value')`.
   */
  function RecordStep(record: Json, listKey: string): (r: Step)
    ensures r.Kept? ==> r.name != "" && FirstEntryValue(record, listKey) == Some(JString(r.name))
    ensures r == Skipped <==>
              && record.JObject?
              && (|| !TruthyGet(record.fields, listKey)
                  || (&& record.fields[listKey].JArray?
                      && EntryStep(record.fields[listKey].items[0]) == Skipped))
    ensures r == KeyError <==>
              record.JObject? && TruthyGet(record.fields, listKey) && record.fields[listKey].JObject?
    ensures !record.JObject? ==> r == Raises
  {
    match record
    case JObject(fields) =>
      if !TruthyGet(fields, listKey) then Skipped
      else
        (match fields[listKey]
         case JArray(entries) => EntryStep(entries[0])
         case JObject(_) => KeyError
         case _ => Raises)
    case _ => Raises
  }

  /** `entry.get('value')` on the first entry, filtered by truthiness. */
  function EntryStep(entry: Json): (r: Step)
    ensures forall u :: r == Kept(u) <==> entry.JObject? && Get(entry.fields, "value") == Some(JString(u)) && u != ""
    ensures r == Skipped <==> entry.JObject? && !TruthyGet(entry.fields, "value")
    ensures r != KeyError
  {
    match entry
    case JObject(fields) =>
      if !TruthyGet(fields, "value") then Skipped
      else
        (match fields["value"]
         case JString(s) => Kept(s)
         case JNumber(_) => NonString
         case JBool(_) => NonString
         case _ => Raises)
    case _ => Raises
  }

  /**
   * A record yields a username exactly when the first entry of its
   * `list_key` array has a non-empty string under 'value'.
   */
  lemma KeptIsFirstEntryValue(record: Json, listKey: string, u: string)
    ensures RecordStep(record, listKey) == Kept(u)
            <==> FirstEntryValue(record, listKey) == Some(JString(u)) && u != ""
  {
  }

  /**
   * The ways a well-formed record contributes nothing without failing: its
   * `list_key` is missing or falsy (an empty list among them), or the first
   * entry has no truthy 'value'.
   */
  lemma SkippedRecords(fields: map<string, Json>, listKey: string, entry: map<string, Json>, rest: seq<Json>)
    ensures !TruthyGet(fields, listKey) ==> RecordStep(JObject(fields), listKey) == Skipped
    ensures RecordStep(JObject(fields[listKey := JArray([])]), listKey) == Skipped
    ensures !TruthyGet(entry, "value")
            ==> RecordStep(JObject(fields[listKey := JArray([JObject(entry)] + rest)]), listKey) == Skipped
  {
  }

  /** Entries after the first one of the `list_key` array are never read. */
  lemma LaterEntriesIgnored(fields: map<string, Json>, listKey: string, first: Json, rest: seq<Json>, rest': seq<Json>)
    ensures RecordStep(JObject(fields[listKey := JArray([first] + rest)]), listKey)
            == RecordStep(JObject(fields[listKey := JArray([first] + rest')]), listKey)
  {
  }

  // ---------------------------------------------------------------------
  // All records
  // ---------------------------------------------------------------------

  /**
   * The documents on which `_load_usernames_from_file` neither raises an
   * uncaught exception nor returns a set holding something other than a
   * string. Python evaluates the records in order, so a record that raises
   * is harmless when an earlier one already raised the caught `KeyError`.
   */
  predicate Admissible(doc: Json, dataKey: string, listKey: string)
    ensures Admissible(doc, dataKey, listKey) ==> RecordList(doc, dataKey).Some?
    ensures Admissible(doc, dataKey, listKey) && !HasKeyError(RecordList(doc, dataKey).value, listKey)
            ==> var records := RecordList(doc, dataKey).value;
                forall i :: 0 <= i < |records| ==>
                  RecordStep(records[i], listKey) == Skipped || RecordStep(records[i], listKey).Kept?
  {
    match RecordList(doc, dataKey)
    case None => false
    case Some(records) =>
      && (forall i :: 0 <= i < |records| && RecordStep(records[i], listKey) == Raises
            ==> exists j :: 0 <= j < i && RecordStep(records[j], listKey) == KeyError)
      && (forall i :: 0 <= i < |records| && RecordStep(records[i], listKey) == NonString
            ==> exists j :: 0 <= j < |records| && RecordStep(records[j], listKey) == KeyError)
  }

  /** Some record makes `[0]` raise the `KeyError` the loader catches. */
  predicate HasKeyError(records: seq<Json>, listKey: string) {
    exists i :: 0 <= i < |records| && RecordStep(records[i], listKey) == KeyError
  }

  /**
   * The set comprehension of `_load_usernames_from_file`: the kept value of
   * every record that passes the filter, duplicates collapsed.
   */
  function Usernames(records: seq<Json>, listKey: string): (names: set<string>)
    ensures forall u :: u in names <==>
              exists i :: 0 <= i < |records| && FirstEntryValue(records[i], listKey) == Some(JString(u)) && u != ""
  {
    forall r, u ensures RecordStep(r, listKey) == Kept(u)
                        <==> FirstEntryValue(r, listKey) == Some(JString(u)) && u != "" {
      KeptIsFirstEntryValue(r, listKey, u);
    }
    set i | 0 <= i < |records| && RecordStep(records[i], listKey).Kept? :: RecordStep(records[i], listKey).name
  }

  lemma UsernamesAppend(a: seq<Json>, b: seq<Json>, listKey: string)
    ensures Usernames(a + b, listKey) == Usernames(a, listKey) + Usernames(b, listKey)
  {
    var ab := a + b;
    forall u ensures u in Usernames(ab, listKey) <==> u in Usernames(a, listKey) + Usernames(b, listKey) {
      if u in Usernames(ab, listKey) {
        var i :| 0 <= i < |ab| && FirstEntryValue(ab[i], listKey) == Some(JString(u)) && u != "";
        if i >= |a| { assert b[i - |a|] == ab[i]; }
      }
      if u in Usernames(b, listKey) {
        var i :| 0 <= i < |b| && FirstEntryValue(b[i], listKey) == Some(JString(u)) && u != "";
        assert ab[|a| + i] == b[i];
      }
      if u in Usernames(a, listKey) {
        var i :| 0 <= i < |a| && FirstEntryValue(a[i], listKey) == Some(JString(u)) && u != "";
        assert ab[i] == a[i];
      }
    }
  }

  /** A record that is skipped changes nothing, wherever it stands. */
  lemma SkippedRecordContributesNothing(a: seq<Json>, r: Json, b: seq<Json>, listKey: string)
    requires RecordStep(r, listKey) == Skipped
    ensures Usernames(a + [r] + b, listKey) == Usernames(a + b, listKey)
  {
    UsernamesAppend(a + [r], b, listKey);
    UsernamesAppend(a, [r], listKey);
    UsernamesAppend(a, b, listKey);
    assert Usernames([r], listKey) == {} by {
      KeptIsFirstEntryValue(r, listKey, "");
      forall u | u in Usernames([r], listKey) ensures false {
        KeptIsFirstEntryValue(r, listKey, u);
      }
    }
  }

  /** A record whose username is already present adds nothing: duplicates collapse. */
  lemma DuplicateContributesOnce(records: seq<Json>, r: Json, listKey: string, u: string)
    requires RecordStep(r, listKey) == Kept(u)
    requires u in Usernames(records, listKey)
    ensures Usernames(records + [r], listKey) == Usernames(records, listKey)
  {
    UsernamesAppend(records, [r], listKey);
    KeptIsFirstEntryValue(r, listKey, u);
    assert [r][0] == r;
    assert Usernames([r], listKey) == {u} by {
      forall v | v in Usernames([r], listKey) ensures v == u {
        KeptIsFirstEntryValue(r, listKey, v);
      }
    }
  }

  /** No more usernames than records. */
  lemma {:induction false} UsernamesBound(records: seq<Json>, listKey: string)
    ensures |Usernames(records, listKey)| <= |records|
    decreases |records|
  {
    if records != [] {
      var init, last := records[..|records| - 1], records[|records| - 1];
      assert records == init + [last];
      UsernamesAppend(init, [last], listKey);
      UsernamesBound(init, listKey);
      assert |Usernames([last], listKey)| <= 1 by {
        forall u, v | u in Usernames([last], listKey) && v in Usernames([last], listKey)
          ensures u == v
        {
          KeptIsFirstEntryValue(last, listKey, u);
          KeptIsFirstEntryValue(last, listKey, v);
        }
        if Usernames([last], listKey) != {} {
          var u :| u in Usernames([last], listKey);
          assert Usernames([last], listKey) == {u};
        }
      }
    }
  }

  // ---------------------------------------------------------------------
  // Loading one file
  // ---------------------------------------------------------------------

  /**
   * `_load_usernames_from_file` after the file has been read: `parsed` is
   * `None` when the file is missing or is not valid JSON. The result is
   * `None` for those and for the caught `KeyError`, otherwise the set of
   * usernames.
   */
  function Load(parsed: Option<Json>, dataKey: string, listKey: string): (r: Option<set<string>>)
    requires parsed.Some? ==> Admissible(parsed.value, dataKey, listKey)
    ensures parsed.None? ==> r.None?
    ensures parsed.Some? ==>
              var records := RecordList(parsed.value, dataKey).value;
              && (r.None? <==> HasKeyError(records, listKey))
              && (r.Some? ==> forall u :: u in r.value <==>
                    exists i :: 0 <= i < |records| && RecordStep(records[i], listKey) == Kept(u))
  {
    match parsed
    case None => None
    case Some(doc) =>
      var records := RecordList(doc, dataKey).value;
      if HasKeyError(records, listKey) then None
      else
        assert forall u :: u in Usernames(records, listKey) <==>
                 exists i :: 0 <= i < |records| && RecordStep(records[i], listKey) == Kept(u) by {
          forall u, i | 0 <= i < |records| {
            KeptIsFirstEntryValue(records[i], listKey, u);
          }
        }
        Some(Usernames(records, listKey))
  }

  /** When `parsed` loads, no record raised, and every record was skipped or kept. */
  lemma LoadedRecordsAreSkippedOrKept(doc: Json, dataKey: string, listKey: string)
    requires Admissible(doc, dataKey, listKey)
    requires Load(Some(doc), dataKey, listKey).Some?
    ensures var records := RecordList(doc, dataKey).value;
            forall i :: 0 <= i < |records| ==>
              RecordStep(records[i], listKey) == Skipped || RecordStep(records[i], listKey).Kept?
  {
  }

  /**
   * A document that keeps its records under a non-empty container key loads
   * exactly like the value under that key loaded with the empty key.
   */
  lemma ContainerKeyReduces(fields: map<string, Json>, dataKey: string, listKey: string)
    requires dataKey != "" && dataKey in fields
    ensures Admissible(JObject(fields), dataKey, listKey) <==> Admissible(fields[dataKey], "", listKey)
    ensures Admissible(JObject(fields), dataKey, listKey)
            ==> Load(Some(JObject(fields)), dataKey, listKey) == Load(Some(fields[dataKey]), "", listKey)
  {
  }

  /** A non-empty container key missing from the document gives the empty set. */
  lemma MissingDataKeyLoadsEmpty(fields: map<string, Json>, dataKey: string, listKey: string)
    requires dataKey != "" && dataKey !in fields
    ensures Admissible(JObject(fields), dataKey, listKey)
    ensures Load(Some(JObject(fields)), dataKey, listKey) == Some({})
  {
    assert Usernames([], listKey) == {};
  }

  /** A truthy dict under `list_key` makes the whole load fail, whatever else the file holds. */
  lemma KeyErrorAbortsLoad(doc: Json, dataKey: string, listKey: string, i: nat)
    requires Admissible(doc, dataKey, listKey)
    requires i < |RecordList(doc, dataKey).value|
    requires RecordList(doc, dataKey).value[i].JObject?
    requires var fields := RecordList(doc, dataKey).value[i].fields;
             listKey in fields && fields[listKey].JObject? && fields[listKey].fields != map[]
    ensures Load(Some(doc), dataKey, listKey).None?
  {
  }

  // ---------------------------------------------------------------------
  // Classification
  // ---------------------------------------------------------------------

  /** The three sorted lists `run_analysis` displays. */
  datatype Classification = Classification(
    mutuals: seq<string>,
    notFollowingBack: seq<string>,
    fans: seq<string>)

  /**
   * `sorted(list(following & followers))`, `sorted(list(following - followers))`
   * and `sorted(list(followers - following))`.
   */
  function Classify(following: set<string>, followers: set<string>): (c: Classification)
    ensures forall u :: u in c.mutuals <==> u in following && u in followers
    ensures forall u :: u in c.notFollowingBack <==> u in following && u !in followers
    ensures forall u :: u in c.fans <==> u in followers && u !in following
    ensures StrictlySorted(c.mutuals) && StrictlySorted(c.notFollowingBack) && StrictlySorted(c.fans)
    ensures |c.mutuals| == |following * followers|
    ensures |c.notFollowingBack| == |following - followers|
    ensures |c.fans| == |followers - following|
  {
    Classification(
      SortedList(following * followers),
      SortedList(following - followers),
      SortedList(followers - following))
  }

  /**
   * The three lists are pairwise disjoint, mutuals and not-following-back
   * together are exactly `following`, mutuals and fans exactly `followers`,
   * and the counts add up accordingly.
   */
  lemma ClassificationPartitions(following: set<string>, followers: set<string>)
    ensures var c := Classify(following, followers);
            && (forall u :: !(u in c.mutuals && u in c.notFollowingBack))
            && (forall u :: !(u in c.mutuals && u in c.fans))
            && (forall u :: !(u in c.notFollowingBack && u in c.fans))
            && (forall u :: u in following <==> u in c.mutuals || u in c.notFollowingBack)
            && (forall u :: u in followers <==> u in c.mutuals || u in c.fans)
            && |c.mutuals| + |c.notFollowingBack| == |following|
            && |c.mutuals| + |c.fans| == |followers|
  {
  }

  /** Every list is duplicate-free. */
  lemma ClassificationDistinct(following: set<string>, followers: set<string>)
    ensures var c := Classify(following, followers);
            && (forall i, j :: 0 <= i < j < |c.mutuals| ==> c.mutuals[i] != c.mutuals[j])
            && (forall i, j :: 0 <= i < j < |c.notFollowingBack| ==> c.notFollowingBack[i] != c.notFollowingBack[j])
            && (forall i, j :: 0 <= i < j < |c.fans| ==> c.fans[i] != c.fans[j])
  {
    var c := Classify(following, followers);
    StrictlySortedDistinct(c.mutuals);
    StrictlySortedDistinct(c.notFollowingBack);
    StrictlySortedDistinct(c.fans);
  }

  /** Swapping the two inputs swaps the two one-way lists. */
  lemma ClassifySwapped(following: set<string>, followers: set<string>)
    ensures Classify(followers, following)
            == var c := Classify(following, followers); Classification(c.mutuals, c.fans, c.notFollowingBack)
  {
    assert followers * following == following * followers;
  }

  /** Identical sets: everybody is mutual, nobody is one-way. */
  lemma ClassifyIdentical(s: set<string>)
    ensures Classify(s, s) == Classification(SortedList(s), [], [])
  {
    assert s * s == s;
    assert s - s == {};
  }

  /** Disjoint sets: nobody is mutual, the one-way lists are the inputs, sorted. */
  lemma ClassifyDisjoint(following: set<string>, followers: set<string>)
    requires following * followers == {}
    ensures Classify(following, followers) == Classification([], SortedList(following), SortedList(followers))
  {
    forall x | x in following ensures x !in followers {
      assert x !in following * followers;
    }
    assert following - followers == following;
    assert followers - following == followers;
  }

  /** Following alice, bob and carol, followed by bob and dave. */
  lemma ClassifyExample()
    ensures Classify({"alice", "bob", "carol"}, {"bob", "dave"})
            == Classification(["bob"], ["alice", "carol"], ["dave"])
  {
  }

  // ---------------------------------------------------------------------
  // The whole analysis
  // ---------------------------------------------------------------------

  /**
   * The guard of `run_analysis`: no classification unless both sets
   * loaded; otherwise the classification of the two.
   */
  function Analyse(following: Option<set<string>>, followers: Option<set<string>>): (r: Option<Classification>)
    ensures r.None? <==> following.None? || followers.None?
    ensures r.Some? ==> r.value == Classify(following.value, followers.value)
  {
    if following.None? || followers.None? then None
    else Some(Classify(following.value, followers.value))
  }

  /**
   * `run_analysis` on the two parsed export files (`None` for a file that is
   * missing or is not valid JSON), with the keys it uses for each. It
   * classifies exactly when both files load.
   */
  function RunAnalysis(followingDoc: Option<Json>, followersDoc: Option<Json>): (r: Option<Classification>)
    requires followingDoc.Some? ==> Admissible(followingDoc.value, FollowingDataKey, UsernameListKey)
    requires followersDoc.Some? ==> Admissible(followersDoc.value, FollowersDataKey, UsernameListKey)
    ensures followingDoc.None? || followersDoc.None? ==> r.None?
    ensures r.None? <==> Load(followingDoc, FollowingDataKey, UsernameListKey).None?
                         || Load(followersDoc, FollowersDataKey, UsernameListKey).None?
    ensures r.Some? ==>
              var following := Load(followingDoc, FollowingDataKey, UsernameListKey);
              var followers := Load(followersDoc, FollowersDataKey, UsernameListKey);
              following.Some? && followers.Some? && r.value == Classify(following.value, followers.value)
  {
    Analyse(Load(followingDoc, FollowingDataKey, UsernameListKey),
            Load(followersDoc, FollowersDataKey, UsernameListKey))
  }

  /**
   * The two files share one record format: the following file, once its
   * "relationships_following" container is opened, loads exactly like a
   * followers file; without that key it counts as following nobody.
   */
  lemma RunAnalysisRecordLists(fields: map<string, Json>)
    ensures FollowingDataKey in fields ==>
              (Admissible(JObject(fields), FollowingDataKey, UsernameListKey)
               <==> Admissible(fields[FollowingDataKey], FollowersDataKey, UsernameListKey))
    ensures FollowingDataKey in fields && Admissible(JObject(fields), FollowingDataKey, UsernameListKey)
            ==> Load(Some(JObject(fields)), FollowingDataKey, UsernameListKey)
                == Load(Some(fields[FollowingDataKey]), FollowersDataKey, UsernameListKey)
    ensures FollowingDataKey !in fields
            ==> Load(Some(JObject(fields)), FollowingDataKey, UsernameListKey) == Some({})
  {
    if FollowingDataKey in fields {
      ContainerKeyReduces(fields, FollowingDataKey, UsernameListKey);
    } else {
      MissingDataKeyLoadsEmpty(fields, FollowingDataKey, UsernameListKey);
    }
  }
}
