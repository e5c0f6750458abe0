/**
 Day buckets: sessions grouped by their `date` string. The grouping walks the
 list once; a date seen for the first time opens a new bucket at the end, and
 every session is appended to the bucket of its date. Dates are taken to be
 locale date strings such as "dd/mm/yyyy": a JavaScript object keeps such
 keys in insertion order, since a key with '/' in it is never an array index.
 */
module Grouping {
  import opened Model

  datatype Bucket = Bucket(date: string, sessions: seq<Session>)

  function Dates(ss: seq<Session>): (ds: seq<string>)
    ensures |ds| == |ss|
    ensures forall i :: 0 <= i < |ss| ==> ds[i] == ss[i].date
  {
    if |ss| == 0 then [] else Dates(ss[..|ss| - 1]) + [ss[|ss| - 1].date]
  }

  /** The dates of `ds` without repeats, in order of first occurrence. */
  function Distinct(ds: seq<string>): (r: seq<string>)
    ensures forall d :: d in r <==> d in ds
    ensures forall i, j :: 0 <= i < j < |r| ==> r[i] != r[j]
  {
    if |ds| == 0 then []
    else
      var prefix := Distinct(ds[..|ds| - 1]);
      var d := ds[|ds| - 1];
      assert forall e :: e in ds <==> e in ds[..|ds| - 1] || e == d by {
        assert ds == ds[..|ds| - 1] + [d];
      }
      if d in prefix then prefix else prefix + [d]
  }

  /** The sessions dated `d`, in input order. */
  function SessionsOn(ss: seq<Session>, d: string): (r: seq<Session>)
    ensures forall s :: s in r <==> s in ss && s.date == d
    ensures |r| <= |ss|
  {
    if |ss| == 0 then []
    else
      var prefix := SessionsOn(ss[..|ss| - 1], d);
      var s := ss[|ss| - 1];
      assert forall x :: x in ss <==> x in ss[..|ss| - 1] || x == s by {
        assert ss == ss[..|ss| - 1] + [s];
      }
      if s.date == d then prefix + [s] else prefix
  }

  function Keys(bs: seq<Bucket>): (ks: seq<string>)
    ensures |ks| == |bs|
    ensures forall i :: 0 <= i < |bs| ==> ks[i] == bs[i].date
  {
    if |bs| == 0 then [] else [bs[0].date] + Keys(bs[1..])
  }

  /** One step of the walk: append `s` to the bucket of its date, or open a
      new bucket for it at the end. */
  function AddSession(bs: seq<Bucket>, s: Session): (r: seq<Bucket>)
    ensures (forall i :: 0 <= i < |bs| ==> bs[i].date != s.date) ==>
      r == bs + [Bucket(s.date, [s])]
    ensures forall j ::
      (0 <= j < |bs| && bs[j].date == s.date && forall i :: 0 <= i < j ==> bs[i].date != s.date) ==>
      r == bs[j := Bucket(s.date, bs[j].sessions + [s])]
  {
    if |bs| == 0 then [Bucket(s.date, [s])]
    else if bs[0].date == s.date then [Bucket(s.date, bs[0].sessions + [s])] + bs[1..]
    else [bs[0]] + AddSession(bs[1..], s)
  }

  /** `dailyGroups`: the buckets, in order of each date's first occurrence. */
  function GroupByDate(ss: seq<Session>): seq<Bucket>
  {
    if |ss| == 0 then [] else AddSession(GroupByDate(ss[..|ss| - 1]), ss[|ss| - 1])
  }

  /** The buckets in closed form: one per distinct date, in first-occurrence
      order, each holding exactly the sessions of that date in input order. */
  lemma {:induction false} GroupByDateCharacterized(ss: seq<Session>)
    ensures ClosedForm(GroupByDate(ss), ss)
  {
    if |ss| > 0 {
      var p := ss[..|ss| - 1];
      var s := ss[|ss| - 1];
      assert ss == p + [s];
      GroupByDateCharacterized(p);
      AddSessionClosedForm(GroupByDate(p), p, s);
    }
  }

  /** `bs` has one bucket per distinct date of `ss`, in first-occurrence
      order, holding that date's sessions. */
  ghost predicate ClosedForm(bs: seq<Bucket>, ss: seq<Session>)
  {
    var ds := Distinct(Dates(ss));
    && |bs| == |ds|
    && forall i :: 0 <= i < |bs| ==> bs[i] == Bucket(ds[i], SessionsOn(ss, ds[i]))
  }

  lemma AddSessionClosedForm(bp: seq<Bucket>, p: seq<Session>, s: Session)
    requires ClosedForm(bp, p)
    ensures ClosedForm(AddSession(bp, s), p + [s])
  {
    DatesSnoc(p, s);
    DistinctSnoc(Dates(p), s.date);
    if s.date in Distinct(Dates(p)) {
      AddToOpenBucket(bp, p, s);
    } else {
      AddNewBucket(bp, p, s);
    }
  }

  lemma AddToOpenBucket(bp: seq<Bucket>, p: seq<Session>, s: Session)
    requires ClosedForm(bp, p)
    requires s.date in Distinct(Dates(p))
    requires Distinct(Dates(p + [s])) == Distinct(Dates(p))
    ensures ClosedForm(AddSession(bp, s), p + [s])
  {
    var ds := Distinct(Dates(p));
    var j := OpenBucketIndex(bp, p, s);
    var bs := AddSession(bp, s);
    forall i | 0 <= i < |bs|
      ensures bs[i] == Bucket(ds[i], SessionsOn(p + [s], ds[i]))
    {
      SessionsOnSnoc(p, s, ds[i]);
      if i == j {
        assert bs[i] == Bucket(s.date, bp[j].sessions + [s]);
      } else {
        assert bs[i] == bp[i] && ds[i] != ds[j];
      }
    }
  }

  /** The bucket that an already-seen date goes to. */
  lemma OpenBucketIndex(bp: seq<Bucket>, p: seq<Session>, s: Session) returns (j: nat)
    requires ClosedForm(bp, p)
    requires s.date in Distinct(Dates(p))
    ensures j < |bp| && bp[j].date == s.date
    ensures AddSession(bp, s) == bp[j := Bucket(s.date, bp[j].sessions + [s])]
  {
    var ds := Distinct(Dates(p));
    j :| 0 <= j < |ds| && ds[j] == s.date;
    assert forall i :: 0 <= i < j ==> bp[i].date != s.date;
  }

  lemma AddNewBucket(bp: seq<Bucket>, p: seq<Session>, s: Session)
    requires ClosedForm(bp, p)
    requires s.date !in Distinct(Dates(p))
    requires Distinct(Dates(p + [s])) == Distinct(Dates(p)) + [s.date]
    ensures ClosedForm(AddSession(bp, s), p + [s])
  {
    var ds := Distinct(Dates(p + [s]));
    assert forall i :: 0 <= i < |bp| ==> bp[i].date != s.date;
    var bs := AddSession(bp, s);
    assert bs == bp + [Bucket(s.date, [s])];
    forall i | 0 <= i < |bs|
      ensures bs[i] == Bucket(ds[i], SessionsOn(p + [s], ds[i]))
    {
      SessionsOnSnoc(p, s, ds[i]);
      if i == |bp| {
        SessionsOnAbsent(p, s.date);
      }
    }
  }

  lemma DatesSnoc(p: seq<Session>, s: Session)
    ensures Dates(p + [s]) == Dates(p) + [s.date]
  {
    assert (p + [s])[..|p|] == p;
  }

  lemma DistinctSnoc(ds: seq<string>, d: string)
    ensures Distinct(ds + [d]) == if d in Distinct(ds) then Distinct(ds) else Distinct(ds) + [d]
  {
    assert (ds + [d])[..|ds|] == ds;
  }

  lemma SessionsOnSnoc(p: seq<Session>, s: Session, d: string)
    ensures SessionsOn(p + [s], d) == if s.date == d then SessionsOn(p, d) + [s] else SessionsOn(p, d)
  {
    assert (p + [s])[..|p|] == p;
  }

  /** A date that no session carries has no sessions. */
  lemma {:induction false} SessionsOnAbsent(p: seq<Session>, d: string)
    requires d !in Dates(p)
    ensures SessionsOn(p, d) == []
  {
    if |p| > 0 {
      var p' := p[..|p| - 1];
      assert Dates(p) == Dates(p') + [p[|p| - 1].date];
      SessionsOnAbsent(p', d);
    }
  }

  /** Concatenation of the bucket contents, in key order. */
  function Flatten(bs: seq<Bucket>): seq<Session>
  {
    if |bs| == 0 then [] else bs[0].sessions + Flatten(bs[1..])
  }

  lemma {:induction false} AddSessionFlatten(bs: seq<Bucket>, s: Session)
    ensures multiset(Flatten(AddSession(bs, s))) == multiset(Flatten(bs)) + multiset{s}
  {
    if |bs| > 0 {
      var r := AddSession(bs, s);
      if bs[0].date == s.date {
        assert r[0] == Bucket(s.date, bs[0].sessions + [s]) && r[1..] == bs[1..];
      } else {
        AddSessionFlatten(bs[1..], s);
        assert r[0] == bs[0] && r[1..] == AddSession(bs[1..], s);
      }
    }
  }

  /** Grouping is a partition: the buckets together hold exactly the input
      sessions, each as often as it occurs in the input. */
  lemma {:induction false} GroupingIsPartition(ss: seq<Session>)
    ensures multiset(Flatten(GroupByDate(ss))) == multiset(ss)
  {
    if |ss| > 0 {
      var p, s := ss[..|ss| - 1], ss[|ss| - 1];
      var g := GroupByDate(p);
      assert GroupByDate(ss) == AddSession(g, s);
      GroupingIsPartition(p);
      AddSessionFlatten(g, s);
      MultisetSnoc(ss);
    }
  }

  lemma MultisetSnoc(ss: seq<Session>)
    requires |ss| > 0
    ensures multiset(ss) == multiset(ss[..|ss| - 1]) + multiset{ss[|ss| - 1]}
  {
    assert ss == ss[..|ss| - 1] + [ss[|ss| - 1]];
  }

  /** Bucket keys are distinct and are exactly the dates present. */
  lemma BucketKeys(ss: seq<Session>)
    ensures var bs := GroupByDate(ss);
      && (forall i, j :: 0 <= i < j < |bs| ==> bs[i].date != bs[j].date)
      && (forall d :: d in Keys(bs) <==> exists k :: 0 <= k < |ss| && ss[k].date == d)
  {
    GroupByDateCharacterized(ss);
    var bs := GroupByDate(ss);
    var ds := Distinct(Dates(ss));
    assert Keys(bs) == ds;
    forall d ensures d in ds <==> exists k :: 0 <= k < |ss| && ss[k].date == d {
      if d in Dates(ss) {
        var k :| 0 <= k < |ss| && Dates(ss)[k] == d;
        assert ss[k].date == d;
      }
      if exists k :: 0 <= k < |ss| && ss[k].date == d {
        var k :| 0 <= k < |ss| && ss[k].date == d;
        assert Dates(ss)[k] == d;
      }
    }
  }

  /** `s` lies in a bucket keyed by its own date. */
  ghost predicate InItsBucket(bs: seq<Bucket>, s: Session)
  {
    exists i :: 0 <= i < |bs| && bs[i].date == s.date && s in bs[i].sessions
  }

  /** Every session lies in the bucket of its own date; with distinct keys
      this places every session in exactly one bucket. */
  lemma EachSessionInOneBucket(ss: seq<Session>)
    ensures forall k :: 0 <= k < |ss| ==> InItsBucket(GroupByDate(ss), ss[k])
  {
    forall k | 0 <= k < |ss| ensures InItsBucket(GroupByDate(ss), ss[k]) {
      var i := BucketOf(ss, k);
    }
  }

  /** A bucket holds only input sessions of its own date, and no bucket is
      empty. */
  lemma BucketsHoldTheirDate(ss: seq<Session>)
    ensures var bs := GroupByDate(ss);
      && (forall i, s :: 0 <= i < |bs| && s in bs[i].sessions ==> s in ss && s.date == bs[i].date)
      && (forall i :: 0 <= i < |bs| ==> |bs[i].sessions| > 0)
  {
    GroupByDateCharacterized(ss);
    var bs := GroupByDate(ss);
    var ds := Distinct(Dates(ss));
    forall i, s | 0 <= i < |bs| && s in bs[i].sessions ensures s in ss && s.date == bs[i].date {
      assert bs[i].sessions == SessionsOn(ss, ds[i]);
    }
    forall i | 0 <= i < |bs| ensures |bs[i].sessions| > 0 {
      assert ds[i] in Dates(ss);
      var k :| 0 <= k < |ss| && Dates(ss)[k] == ds[i];
      assert ss[k] in SessionsOn(ss, ds[i]);
    }
  }

  /** The index of the bucket holding `ss[k]`. */
  lemma BucketOf(ss: seq<Session>, k: nat) returns (i: nat)
    requires k < |ss|
    ensures var bs := GroupByDate(ss);
      i < |bs| && bs[i].date == ss[k].date && ss[k] in bs[i].sessions
  {
    GroupByDateCharacterized(ss);
    var ds := Distinct(Dates(ss));
    assert Dates(ss)[k] == ss[k].date;
    assert ss[k].date in Dates(ss);
    i :| 0 <= i < |ds| && ds[i] == ss[k].date;
    assert ss[k] in SessionsOn(ss, ds[i]);
  }

  /** The bucket of date `d`, if any session carries it. */
  function Lookup(bs: seq<Bucket>, d: string): (r: Option<seq<Session>>)
    ensures r.None? <==> d !in Keys(bs)
    ensures r.Some? ==> exists i :: 0 <= i < |bs| && bs[i].date == d && bs[i].sessions == r.value
  {
    if |bs| == 0 then None
    else if bs[0].date == d then Some(bs[0].sessions)
    else Lookup(bs[1..], d)
  }

  /** Looking a date up in the buckets gives exactly that date's sessions. */
  lemma LookupGroup(ss: seq<Session>, d: string)
    ensures var r := Lookup(GroupByDate(ss), d);
      && (r.None? <==> forall k :: 0 <= k < |ss| ==> ss[k].date != d)
      && (r.Some? ==> r.value == SessionsOn(ss, d))
  {
    BucketKeys(ss);
    GroupByDateCharacterized(ss);
  }
}
