/**
 * The per-section analysis document: a name and a 'dates' dictionary from
 * an ISO date to the list of measurement records taken that day. Records
 * are merged by image name, every list is sorted by its datetime text
 * before the document is saved, and the summary reports the dates and the
 * number of records.
 */
module SectionStore {
  import opened Wrappers
  import opened Text

  /** One photo's measurements as they are written to the section document. */
  datatype AnalysisRecord = AnalysisRecord(
    datetime: string,
    imageName: string,
    averageBrightness: real,
    brightnessVariation: real,
    shadowPercentage: real,
    heatMapFile: string)

  /**
   * The 'dates' dictionary. Python dictionaries keep insertion order, which
   * the summary exposes, so the keys are kept in `order` beside the map.
   */
  datatype Dates = Dates(order: seq<string>, buckets: map<string, seq<AnalysisRecord>>)
  {
    /** Every key is listed once, and exactly the keys are listed. */
    ghost predicate Valid()
    {
      && (forall i, j :: 0 <= i < j < |order| ==> order[i] != order[j])
      && (forall k :: k in buckets <==> k in order)
    }
  }

  datatype SectionDocument = SectionDocument(name: string, dates: Dates)

  const NoDates := Dates([], map[])

  /**
   * _load_section_data: the document saved for the section, or a fresh
   * {'name': section, 'dates': {}} when none was saved.
   */
  function LoadSectionData(saved: map<string, SectionDocument>, section: string): (doc: SectionDocument)
    ensures section in saved ==> doc == saved[section]
    ensures section !in saved ==> doc.name == section && doc.dates.order == [] && doc.dates.buckets == map[]
  {
    if section in saved then saved[section] else SectionDocument(section, NoDates)
  }

  /** `if date_str not in dates: dates[date_str] = []` */
  function EnsureBucket(dates: Dates, key: string): (r: Dates)
    requires dates.Valid()
    ensures r.Valid() && key in r.buckets
    ensures key in dates.buckets ==> r == dates
    ensures key !in dates.buckets ==> r.order == dates.order + [key] && r.buckets == dates.buckets[key := []]
  {
    if key in dates.buckets then dates else Dates(dates.order + [key], dates.buckets[key := []])
  }

  predicate HasImage(bucket: seq<AnalysisRecord>, name: string)
  {
    exists j :: 0 <= j < |bucket| && bucket[j].imageName == name
  }

  /** The first index whose record carries `name` (the head of the list of matching indices). */
  function FirstIndexOf(bucket: seq<AnalysisRecord>, name: string): (r: Option<nat>)
    ensures r.Some? <==> HasImage(bucket, name)
    ensures r.Some? ==> r.value < |bucket| && bucket[r.value].imageName == name
    ensures r.Some? ==> forall j :: 0 <= j < r.value ==> bucket[j].imageName != name
  {
    if bucket == [] then None
    else if bucket[0].imageName == name then Some(0)
    else match FirstIndexOf(bucket[1..], name)
      case None => None
      case Some(k) => Some(k + 1)
  }

  /**
   * The update-or-append step: the first record with the same image name
   * is overwritten where it stands; with none, the record goes at the end.
   */
  function Upsert(bucket: seq<AnalysisRecord>, rec: AnalysisRecord): (r: seq<AnalysisRecord>)
    ensures HasImage(bucket, rec.imageName) ==> |r| == |bucket|
    ensures !HasImage(bucket, rec.imageName) ==> |r| == |bucket| + 1
    ensures HasImage(r, rec.imageName)
    ensures forall x :: x in r ==> x in bucket || x == rec
  {
    match FirstIndexOf(bucket, rec.imageName)
    case Some(k) =>
      assert bucket[k := rec][k] == rec;
      bucket[k := rec]
    case None =>
      assert (bucket + [rec])[|bucket|] == rec;
      bucket + [rec]
  }

  /** An existing record is replaced at the first position that carries the name; the rest stay put. */
  lemma UpsertInPlace(bucket: seq<AnalysisRecord>, rec: AnalysisRecord, k: nat)
    requires k < |bucket| && bucket[k].imageName == rec.imageName
    requires forall j :: 0 <= j < k ==> bucket[j].imageName != rec.imageName
    ensures |Upsert(bucket, rec)| == |bucket| && Upsert(bucket, rec)[k] == rec
    ensures forall j :: 0 <= j < |bucket| && j != k ==> Upsert(bucket, rec)[j] == bucket[j]
  {
    var f := FirstIndexOf(bucket, rec.imageName);
    assert f.Some? && f.value == k;
  }

  /** A record for a new image name is appended and nothing else moves. */
  lemma UpsertAppends(bucket: seq<AnalysisRecord>, rec: AnalysisRecord)
    requires forall j :: 0 <= j < |bucket| ==> bucket[j].imageName != rec.imageName
    ensures Upsert(bucket, rec) == bucket + [rec]
  {
  }

  /** Merging the same record a second time changes nothing. */
  lemma UpsertIdempotent(bucket: seq<AnalysisRecord>, rec: AnalysisRecord)
    ensures Upsert(Upsert(bucket, rec), rec) == Upsert(bucket, rec)
  {
    var once := Upsert(bucket, rec);
    match FirstIndexOf(bucket, rec.imageName)
    case Some(k) =>
      assert once == bucket[k := rec];
      UpsertInPlace(once, rec, k);
      assert Upsert(once, rec) == once[k := rec];
    case None =>
      assert once == bucket + [rec];
      UpsertInPlace(once, rec, |bucket|);
      assert Upsert(once, rec) == once[|bucket| := rec];
  }

  /** No two records of a list carry the same image name. */
  predicate DistinctNames(bucket: seq<AnalysisRecord>)
  {
    forall i, j :: 0 <= i < j < |bucket| ==> bucket[i].imageName != bucket[j].imageName
  }

  /** A record is identified within its list by its image name: merging keeps names distinct. */
  lemma UpsertKeepsNamesDistinct(bucket: seq<AnalysisRecord>, rec: AnalysisRecord)
    requires DistinctNames(bucket)
    ensures DistinctNames(Upsert(bucket, rec))
  {
  }

  /** `dates[key]` after the update-or-append; every other date keeps its list. */
  function MergeRecord(dates: Dates, key: string, rec: AnalysisRecord): (r: Dates)
    requires dates.Valid() && key in dates.buckets
    ensures r.Valid() && r.order == dates.order && r.buckets.Keys == dates.buckets.Keys
    ensures forall k :: k in dates.buckets && k != key ==> r.buckets[k] == dates.buckets[k]
    ensures r.buckets[key] == Upsert(dates.buckets[key], rec)
  {
    Dates(dates.order, dates.buckets[key := Upsert(dates.buckets[key], rec)])
  }

  lemma MergeRecordIdempotent(dates: Dates, key: string, rec: AnalysisRecord)
    requires dates.Valid() && key in dates.buckets
    ensures MergeRecord(MergeRecord(dates, key, rec), key, rec) == MergeRecord(dates, key, rec)
  {
    UpsertIdempotent(dates.buckets[key], rec);
  }

  // ---------------------------------------------------------------------
  // Sorting a list by its 'datetime' text (list.sort, which is stable)

  predicate SortedByDatetime(s: seq<AnalysisRecord>)
  {
    forall i, j :: 0 <= i < j < |s| ==> LexLeq(s[i].datetime, s[j].datetime)
  }

  /** The records of `s` whose datetime text is `t`, in their order in `s`. */
  function WithDatetime(s: seq<AnalysisRecord>, t: string): seq<AnalysisRecord>
  {
    if s == [] then []
    else WithDatetime(s[..|s| - 1], t) + (if s[|s| - 1].datetime == t then [s[|s| - 1]] else [])
  }

  lemma WithDatetimeSnoc(s: seq<AnalysisRecord>, x: AnalysisRecord, t: string)
    ensures WithDatetime(s + [x], t) == WithDatetime(s, t) + (if x.datetime == t then [x] else [])
  {
    assert (s + [x])[..|s|] == s;
  }

  /** Puts `x` after the last record whose datetime is not greater than its own. */
  function InsertByDatetime(s: seq<AnalysisRecord>, x: AnalysisRecord): (r: seq<AnalysisRecord>)
    ensures multiset(r) == multiset(s) + multiset{x} && |r| == |s| + 1
  {
    if s == [] then [x]
    else if LexLeq(s[|s| - 1].datetime, x.datetime) then s + [x]
    else
      assert s == s[..|s| - 1] + [s[|s| - 1]];
      InsertByDatetime(s[..|s| - 1], x) + [s[|s| - 1]]
  }

  lemma SortedSnoc(s: seq<AnalysisRecord>, x: AnalysisRecord)
    requires SortedByDatetime(s)
    requires forall y :: y in s ==> LexLeq(y.datetime, x.datetime)
    ensures SortedByDatetime(s + [x])
  {
  }

  lemma {:induction false} InsertSorted(s: seq<AnalysisRecord>, x: AnalysisRecord)
    requires SortedByDatetime(s)
    ensures SortedByDatetime(InsertByDatetime(s, x))
    decreases |s|
  {
    if s == [] {
    } else if LexLeq(s[|s| - 1].datetime, x.datetime) {
      forall y | y in s ensures LexLeq(y.datetime, x.datetime) {
        var i :| 0 <= i < |s| && s[i] == y;
        if i < |s| - 1 { LexLeqTransitive(y.datetime, s[|s| - 1].datetime, x.datetime); }
      }
      SortedSnoc(s, x);
    } else {
      var init, last := s[..|s| - 1], s[|s| - 1];
      InsertSorted(init, x);
      var t := InsertByDatetime(init, x);
      LexLeqTotal(last.datetime, x.datetime);
      forall y | y in t ensures LexLeq(y.datetime, last.datetime) {
        assert y in multiset(t);
        if y != x {
          assert y in multiset(init);
          var i :| 0 <= i < |init| && init[i] == y;
        }
      }
      SortedSnoc(t, last);
    }
  }

  lemma {:induction false} InsertStable(s: seq<AnalysisRecord>, x: AnalysisRecord, t: string)
    ensures WithDatetime(InsertByDatetime(s, x), t) == WithDatetime(s, t) + (if x.datetime == t then [x] else [])
    decreases |s|
  {
    if s == [] {
      WithDatetimeSnoc([], x, t);
    } else if LexLeq(s[|s| - 1].datetime, x.datetime) {
      WithDatetimeSnoc(s, x, t);
    } else {
      InsertStable(s[..|s| - 1], x, t);
      InsertStableStep(s, x, t);
    }
  }

  /** The step of InsertStable where `x` moves past the last record. */
  lemma InsertStableStep(s: seq<AnalysisRecord>, x: AnalysisRecord, t: string)
    requires s != [] && !LexLeq(s[|s| - 1].datetime, x.datetime)
    requires WithDatetime(InsertByDatetime(s[..|s| - 1], x), t)
          == WithDatetime(s[..|s| - 1], t) + (if x.datetime == t then [x] else [])
    ensures WithDatetime(InsertByDatetime(s, x), t) == WithDatetime(s, t) + (if x.datetime == t then [x] else [])
  {
    var init, last := s[..|s| - 1], s[|s| - 1];
    var ins := InsertByDatetime(init, x);
    var xs := if x.datetime == t then [x] else [];
    var ls := if last.datetime == t then [last] else [];
    assert InsertByDatetime(s, x) == ins + [last];
    WithDatetimeSnoc(ins, last, t);
    assert WithDatetime(s, t) == WithDatetime(init, t) + ls;
    LexLeqReflexive(x.datetime);
    if xs == [] {
      assert WithDatetime(ins, t) == WithDatetime(init, t) + xs == WithDatetime(init, t);
      assert WithDatetime(s, t) + xs == WithDatetime(s, t);
    } else {
      assert ls == [];
      assert WithDatetime(ins + [last], t) == WithDatetime(ins, t) + ls == WithDatetime(ins, t);
      assert WithDatetime(s, t) == WithDatetime(init, t) + ls == WithDatetime(init, t);
    }
  }

  /**
   * list.sort(key=lambda r: r['datetime']): the same records, ordered by
   * their datetime text, with records of equal datetime in their old order.
   */
  function SortByDatetime(s: seq<AnalysisRecord>): (r: seq<AnalysisRecord>)
    ensures multiset(r) == multiset(s) && |r| == |s|
  {
    if s == [] then []
    else
      assert s == s[..|s| - 1] + [s[|s| - 1]];
      InsertByDatetime(SortByDatetime(s[..|s| - 1]), s[|s| - 1])
  }

  lemma {:induction false} SortByDatetimeSorted(s: seq<AnalysisRecord>)
    ensures SortedByDatetime(SortByDatetime(s))
  {
    if s != [] {
      SortByDatetimeSorted(s[..|s| - 1]);
      InsertSorted(SortByDatetime(s[..|s| - 1]), s[|s| - 1]);
    }
  }

  /** Stability: the records sharing one datetime text keep their relative order. */
  lemma {:induction false} SortByDatetimeStable(s: seq<AnalysisRecord>, t: string)
    ensures WithDatetime(SortByDatetime(s), t) == WithDatetime(s, t)
  {
    if s != [] {
      SortByDatetimeStable(s[..|s| - 1], t);
      InsertStable(SortByDatetime(s[..|s| - 1]), s[|s| - 1], t);
    }
  }

  /** A list that is already in order is left exactly as it is. */
  lemma {:induction false} SortByDatetimeOfSorted(s: seq<AnalysisRecord>)
    requires SortedByDatetime(s)
    ensures SortByDatetime(s) == s
  {
    if s != [] {
      var init := s[..|s| - 1];
      assert SortedByDatetime(init);
      SortByDatetimeOfSorted(init);
      assert s == init + [s[|s| - 1]];
    }
  }

  lemma DistinctNamesSnoc(t: seq<AnalysisRecord>, y: AnalysisRecord)
    requires DistinctNames(t)
    requires forall z :: z in t ==> z.imageName != y.imageName
    ensures DistinctNames(t + [y])
  {
    var u := t + [y];
    forall i, j | 0 <= i < j < |u| ensures u[i].imageName != u[j].imageName {
      if j == |t| { assert u[i] in t; }
    }
  }

  lemma {:induction false} InsertKeepsNamesDistinct(s: seq<AnalysisRecord>, x: AnalysisRecord)
    requires DistinctNames(s)
    requires forall z :: z in s ==> z.imageName != x.imageName
    ensures DistinctNames(InsertByDatetime(s, x))
    decreases |s|
  {
    if s == [] {
    } else if LexLeq(s[|s| - 1].datetime, x.datetime) {
      DistinctNamesSnoc(s, x);
    } else {
      var init, last := s[..|s| - 1], s[|s| - 1];
      assert forall z :: z in init ==> z in s;
      InsertKeepsNamesDistinct(init, x);
      var t := InsertByDatetime(init, x);
      forall z | z in t ensures z.imageName != last.imageName {
        assert z in multiset(t);
        if z != x {
          assert z in multiset(init);
          var i :| 0 <= i < |init| && init[i] == z;
          assert s[i] == z;
        }
      }
      DistinctNamesSnoc(t, last);
    }
  }

  /** Sorting a list whose image names are distinct keeps them distinct. */
  lemma {:induction false} SortKeepsNamesDistinct(s: seq<AnalysisRecord>)
    requires DistinctNames(s)
    ensures DistinctNames(SortByDatetime(s))
  {
    if s != [] {
      var init, last := s[..|s| - 1], s[|s| - 1];
      SortKeepsNamesDistinct(init);
      forall z | z in SortByDatetime(init) ensures z.imageName != last.imageName {
        assert z in multiset(SortByDatetime(init));
        var i :| 0 <= i < |init| && init[i] == z;
        assert s[i] == z;
      }
      InsertKeepsNamesDistinct(SortByDatetime(init), last);
    }
  }

  /** The document after the sorting loop: every list sorted, keys and key order untouched. */
  function SortBuckets(dates: Dates): (r: Dates)
    ensures r.order == dates.order && r.buckets.Keys == dates.buckets.Keys
    ensures dates.Valid() ==> r.Valid()
  {
    Dates(dates.order, map k | k in dates.buckets :: SortByDatetime(dates.buckets[k]))
  }

  lemma SortBucketsPointwise(dates: Dates, m: map<string, seq<AnalysisRecord>>)
    requires m.Keys == dates.buckets.Keys
    requires forall k :: k in m ==> m[k] == SortByDatetime(dates.buckets[k])
    ensures Dates(dates.order, m) == SortBuckets(dates)
  {
    assert m == SortBuckets(dates).buckets;
  }

  /** Every list of a document whose lists are sorted. */
  ghost predicate AllSorted(dates: Dates)
  {
    forall k :: k in dates.buckets ==> SortedByDatetime(dates.buckets[k])
  }

  lemma SortBucketsSorts(dates: Dates)
    ensures AllSorted(SortBuckets(dates))
    ensures forall k :: k in dates.buckets ==> multiset(SortBuckets(dates).buckets[k]) == multiset(dates.buckets[k])
  {
    forall k | k in dates.buckets ensures SortedByDatetime(SortBuckets(dates).buckets[k]) {
      SortByDatetimeSorted(dates.buckets[k]);
    }
  }

  lemma SortBucketsOfSorted(dates: Dates)
    requires AllSorted(dates)
    ensures SortBuckets(dates) == dates
  {
    forall k | k in dates.buckets ensures SortBuckets(dates).buckets[k] == dates.buckets[k] {
      SortByDatetimeOfSorted(dates.buckets[k]);
    }
  }

  /** The lists of 'dates' at the first 'i' keys of its order are sorted, the others untouched. */
  ghost predicate SortedUpTo(dates: Dates, buckets: map<string, seq<AnalysisRecord>>, i: nat)
    requires dates.Valid() && i <= |dates.order|
  {
    && buckets.Keys == dates.buckets.Keys
    && (forall n :: 0 <= n < i ==> buckets[dates.order[n]] == SortByDatetime(dates.buckets[dates.order[n]]))
    && (forall n :: i <= n < |dates.order| ==> buckets[dates.order[n]] == dates.buckets[dates.order[n]])
  }

  /** Sorting the list at key number 'i' extends the sorted prefix by one key. */
  lemma SortStep(dates: Dates, buckets: map<string, seq<AnalysisRecord>>, i: nat)
    requires dates.Valid() && i < |dates.order| && SortedUpTo(dates, buckets, i)
    ensures SortedUpTo(dates, buckets[dates.order[i] := SortByDatetime(buckets[dates.order[i]])], i + 1)
  {
    var key := dates.order[i];
    var next := buckets[key := SortByDatetime(buckets[key])];
    forall n | 0 <= n < i + 1
      ensures next[dates.order[n]] == SortByDatetime(dates.buckets[dates.order[n]])
    {
      if n < i {
        assert dates.order[n] != key;
      }
    }
    forall n | i + 1 <= n < |dates.order|
      ensures next[dates.order[n]] == dates.buckets[dates.order[n]]
    {
      assert dates.order[n] != key;
    }
  }

  /** Once every key of the order has been visited, the lists are those of 'SortBuckets'. */
  lemma SortedAll(dates: Dates, buckets: map<string, seq<AnalysisRecord>>)
    requires dates.Valid() && SortedUpTo(dates, buckets, |dates.order|)
    ensures forall k :: k in dates.buckets ==> buckets[k] == SortByDatetime(dates.buckets[k])
    ensures Dates(dates.order, buckets) == SortBuckets(dates)
  {
    forall k | k in dates.buckets ensures buckets[k] == SortByDatetime(dates.buckets[k]) {
      var n :| 0 <= n < |dates.order| && dates.order[n] == k;
    }
    SortBucketsPointwise(dates, buckets);
  }

  /**
   * The sorting loop over the keys of 'dates', one list at a time: the
   * result has the same keys in the same order, and each list is the
   * stable sort of the old one.
   */
  method SortEachBucket(dates: Dates) returns (sorted: Dates)
    requires dates.Valid()
    ensures sorted.order == dates.order && sorted.buckets.Keys == dates.buckets.Keys
    ensures forall k :: k in dates.buckets ==> sorted.buckets[k] == SortByDatetime(dates.buckets[k])
    ensures sorted == SortBuckets(dates)
  {
    var buckets := dates.buckets;
    var i := 0;
    while i < |dates.order|
      invariant 0 <= i <= |dates.order|
      invariant SortedUpTo(dates, buckets, i)
    {
      SortStep(dates, buckets, i);
      var key := dates.order[i];
      buckets := buckets[key := SortByDatetime(buckets[key])];
      i := i + 1;
    }
    SortedAll(dates, buckets);
    sorted := Dates(dates.order, buckets);
  }

  // ---------------------------------------------------------------------
  // Summary

  datatype SectionSummary = SectionSummary(dates: seq<string>, totalMeasurements: nat)

  /** The sum of the lengths of the lists listed in `order`. */
  function SumLengths(order: seq<string>, buckets: map<string, seq<AnalysisRecord>>): nat
    requires forall k :: k in order ==> k in buckets
  {
    if order == [] then 0 else |buckets[order[0]]| + SumLengths(order[1..], buckets)
  }

  /** What get_analysis_summary reports for one document. */
  function Summarize(doc: SectionDocument): (s: SectionSummary)
    requires doc.dates.Valid()
    ensures s.dates == doc.dates.order
  {
    SectionSummary(doc.dates.order, SumLengths(doc.dates.order, doc.dates.buckets))
  }

  /** Replacing one listed list changes the total by the difference of the two lengths. */
  lemma {:induction false} SumLengthsUpdate(order: seq<string>, buckets: map<string, seq<AnalysisRecord>>, key: string, b: seq<AnalysisRecord>)
    requires forall k :: k in order ==> k in buckets
    requires key in buckets
    requires forall i, j :: 0 <= i < j < |order| ==> order[i] != order[j]
    ensures SumLengths(order, buckets[key := b]) + (if key in order then |buckets[key]| else 0)
         == SumLengths(order, buckets) + (if key in order then |b| else 0)
  {
    if order != [] {
      assert forall k :: k in order[1..] ==> k in order;
      SumLengthsUpdate(order[1..], buckets, key, b);
      if order[0] == key { assert key !in order[1..]; }
    }
  }

  lemma {:induction false} SumLengthsAppend(order: seq<string>, buckets: map<string, seq<AnalysisRecord>>, key: string)
    requires forall k :: k in order ==> k in buckets
    requires key !in order
    ensures SumLengths(order + [key], buckets[key := []]) == SumLengths(order, buckets)
  {
    if order == [] {
      assert [key][1..] == [];
    } else {
      SumLengthsAppend(order[1..], buckets, key);
      assert (order + [key])[1..] == order[1..] + [key];
    }
  }

  /**
   * Merging one record into a date's list adds one measurement when the
   * image is new to that list and none when it replaces a record.
   */
  lemma MergeCountsOnce(doc: SectionDocument, key: string, rec: AnalysisRecord)
    requires doc.dates.Valid()
    ensures var d := EnsureBucket(doc.dates, key);
            Summarize(doc.(dates := MergeRecord(d, key, rec))).totalMeasurements
            == Summarize(doc).totalMeasurements + (if HasImage(d.buckets[key], rec.imageName) then 0 else 1)
  {
    var d := EnsureBucket(doc.dates, key);
    if key !in doc.dates.buckets {
      SumLengthsAppend(doc.dates.order, doc.dates.buckets, key);
    }
    SumLengthsUpdate(d.order, d.buckets, key, Upsert(d.buckets[key], rec));
  }

  /** Sorting changes neither the dates nor the count that the summary reports. */
  lemma {:induction false} SumLengthsSorted(order: seq<string>, dates: Dates)
    requires forall k :: k in order ==> k in dates.buckets
    ensures SumLengths(order, SortBuckets(dates).buckets) == SumLengths(order, dates.buckets)
  {
    if order != [] {
      assert forall k :: k in order[1..] ==> k in order;
      SumLengthsSorted(order[1..], dates);
    }
  }

  lemma SortKeepsSummary(doc: SectionDocument)
    requires doc.dates.Valid()
    ensures SortBuckets(doc.dates).Valid()
    ensures Summarize(doc.(dates := SortBuckets(doc.dates))) == Summarize(doc)
  {
    SumLengthsSorted(doc.dates.order, doc.dates);
  }

  /** A fresh document reports no dates and no measurements. */
  lemma FreshSectionSummary(saved: map<string, SectionDocument>, section: string)
    requires section !in saved
    ensures LoadSectionData(saved, section).dates.Valid()
    ensures Summarize(LoadSectionData(saved, section)) == SectionSummary([], 0)
  {
  }
}
