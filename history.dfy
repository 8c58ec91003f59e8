/** The history record the edge node writes and the change filter the
    launcher runs on it before plotting (`check_data`). */
module History {
  import opened Slices

  /** A JSON scalar of a history series: an ISO-8601 timestamp string, a
      reading, a boolean or null. */
  datatype Scalar = Text(s: string) | Number(x: real) | Bool(b: bool) | Null

  /** Python's `==` on two scalars: `bool` is a subclass of `int`, so `True`
      equals `1` and `1.0` and `False` equals `0`; an int equals a float of
      the same value; `None` equals only `None`; a string equals only a string. */
  predicate SameValue(a: Scalar, b: Scalar) {
    match (a, b)
    case (Text(s), Text(t)) => s == t
    case (Number(x), Number(y)) => x == y
    case (Bool(p), Bool(q)) => p == q
    case (Bool(p), Number(y)) => y == (if p then 1.0 else 0.0)
    case (Number(x), Bool(q)) => x == (if q then 1.0 else 0.0)
    case (Null, Null) => true
    case _ => false
  }

  /** Python's `==` on two lists: the same length and equal entries pairwise. */
  predicate SameSeries(s: Series, t: Series) {
    |s| == |t| && forall i :: 0 <= i < |s| ==> SameValue(s[i], t[i])
  }

  type Series = seq<Scalar>

  /** The loaded JSON object: each key (`timestamps`, `cpu_load`, ...) maps to a list. */
  type Record = map<string, Series>

  const TimestampsKey: string := "timestamps"

  /** The retained history length, `MAX_HISTORY_QUEUE`; the constant is positive. */
  type Capacity = n: nat | n > 0 witness 1

  /** What `check_data` does for the caller: it returns a bool or, when the
      timestamps list is empty, raises IndexError on `data['timestamps'][0]`. */
  datatype Outcome = Returned(changed: bool) | IndexError

  /** The result of one `check_data` call: its outcome, the new last-seen
      timestamps and the record as the call leaves it. */
  datatype Step = Step(outcome: Outcome, last: Series, record: Record)

  /** `s` is a suffix of `t`. */
  predicate IsSuffix(s: Series, t: Series) {
    |s| <= |t| && s == t[|t| - |s|..]
  }

  /** Every series cut down to its last `cap` entries; no key added or removed. */
  function Trim(record: Record, cap: Capacity): (r: Record)
    ensures r.Keys == record.Keys
    ensures forall k :: k in r ==> IsSuffix(r[k], record[k]) && |r[k]| == Min(cap, |record[k]|)
  {
    map k | k in record :: TakeLast(record[k], cap)
  }

  /** The change filter as a function of the last-seen timestamps and the record. */
  function Check(last: Series, record: Record, cap: Capacity): (s: Step)
    ensures s.outcome == IndexError <==> TimestampsKey in record && record[TimestampsKey] == []
    ensures s.outcome == Returned(true) <==>
              TimestampsKey in record && record[TimestampsKey] != [] &&
              !SameSeries(record[TimestampsKey], last)
    ensures s.outcome != Returned(true) ==> s.last == last && s.record == record
    ensures s.outcome == Returned(true) ==> s.last == record[TimestampsKey]
  {
    if TimestampsKey !in record then
      Step(Returned(false), last, record)
    else
      var stamps := record[TimestampsKey];
      if stamps == [] then
        Step(IndexError, last, record)
      else if SameSeries(stamps, last) then
        Step(Returned(false), last, record)
      else
        Step(Returned(true), stamps, if |stamps| > cap then Trim(record, cap) else record)
  }

  /** List equality is an equivalence that identical lists satisfy, so a
      stored copy always matches the list it was copied from. */
  lemma SameSeriesIsEquivalence(s: Series, t: Series, u: Series)
    ensures SameSeries(s, s)
    ensures SameSeries(s, t) ==> SameSeries(t, s)
    ensures SameSeries(s, t) && SameSeries(t, u) ==> SameSeries(s, u)
  {
  }

  /** Timestamps reloaded as booleans equal to the stored numbers are not a
      change: `[True] != [1]` is false in Python. */
  lemma BoolTimestampsMatchNumbers(record: Record, cap: Capacity)
    requires TimestampsKey in record && record[TimestampsKey] == [Bool(true), Bool(false)]
    ensures Check([Number(1.0), Number(0.0)], record, cap) ==
              Step(Returned(false), [Number(1.0), Number(0.0)], record)
  {
  }

  /** A record without `timestamps` is reported unchanged and left alone. */
  lemma NoTimestampsNoChange(last: Series, record: Record, cap: Capacity)
    requires TimestampsKey !in record
    ensures Check(last, record, cap) == Step(Returned(false), last, record)
  {
  }

  /** A change with timestamps longer than the capacity trims every series to
      its own last `cap` entries; a shorter history leaves the record as it was. */
  lemma ChangedRecordIsTrimmed(last: Series, record: Record, cap: Capacity)
    requires Check(last, record, cap).outcome == Returned(true)
    ensures var s := Check(last, record, cap);
            s.record.Keys == record.Keys &&
            (|record[TimestampsKey]| > cap ==>
               forall k :: k in record ==> s.record[k] == TakeLast(record[k], cap)) &&
            (|record[TimestampsKey]| <= cap ==> s.record == record)
  {
  }

  /** After a change the trimmed timestamps are not empty (so the second read
      of `[0]` and `[-1]` cannot raise), keep the newest timestamp, and hold
      at most `cap` entries. */
  lemma ChangedTimestampsKeepNewest(last: Series, record: Record, cap: Capacity)
    requires Check(last, record, cap).outcome == Returned(true)
    ensures var s := Check(last, record, cap);
            var before := record[TimestampsKey];
            TimestampsKey in s.record &&
            var after := s.record[TimestampsKey];
            0 < |after| <= cap &&
            after[|after| - 1] == before[|before| - 1] &&
            after[0] == before[|before| - |after|]
  {
    var before := record[TimestampsKey];
    if |before| > cap {
      var after := Trim(record, cap)[TimestampsKey];
      assert after == before[|before| - |after|..];
    }
  }

  /** Reading the same record again right after a call reports no change and
      leaves everything as it is: the last-seen timestamps are the record's own
      untrimmed ones. */
  lemma SecondCallSeesNoChange(last: Series, record: Record, cap: Capacity)
    ensures var first := Check(last, record, cap);
            var second := Check(first.last, record, cap);
            second.last == first.last && second.record == record &&
            second.outcome == (if first.outcome == IndexError then IndexError else Returned(false))
  {
  }

  /** Handing the trimmed record itself back in reports a change again, since
      its timestamps are no longer the stored (untrimmed) ones. */
  lemma TrimmedRecordLooksNew(last: Series, record: Record, cap: Capacity)
    requires Check(last, record, cap).outcome == Returned(true)
    requires |record[TimestampsKey]| > cap
    ensures var first := Check(last, record, cap);
            Check(first.last, first.record, cap).outcome == Returned(true)
  {
    var first := Check(last, record, cap);
    assert |first.record[TimestampsKey]| == cap;
  }

  /** Trimming is idempotent. */
  lemma TrimTwice(record: Record, cap: Capacity)
    ensures Trim(Trim(record, cap), cap) == Trim(record, cap)
  {
    var once := Trim(record, cap);
    var twice := Trim(once, cap);
    assert twice.Keys == once.Keys;
    forall k | k in once
      ensures twice[k] == once[k]
    {
      assert once[k] == TakeLast(record[k], cap);
      assert twice[k] == TakeLast(once[k], cap);
      TakeLastTwice(record[k], cap);
    }
  }

  /** Parallel series stay parallel: when every series has the same length n
      as the timestamps, after trimming each has min(n, cap) entries and
      entry i of each is entry i + n - min(n, cap) of the original, so every
      reading stays paired with its timestamp. */
  lemma TrimKeepsSeriesAligned(record: Record, cap: Capacity, n: nat)
    requires forall k :: k in record ==> |record[k]| == n
    ensures var r := Trim(record, cap);
            forall k :: k in r ==> AlignedSuffix(r[k], record[k], Min(cap, n))
  {
    var r := Trim(record, cap);
    forall k | k in r
      ensures AlignedSuffix(r[k], record[k], Min(cap, n))
    {
      assert r[k] == record[k][n - |r[k]|..];
    }
  }

  /** `s` has m entries and entry i of `s` is entry i + |t| - m of `t`. */
  predicate AlignedSuffix(s: Series, t: Series, m: nat)
  {
    |s| == m <= |t| && forall i :: 0 <= i < m ==> s[i] == t[i + |t| - m]
  }
}
