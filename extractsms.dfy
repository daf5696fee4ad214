/**
 * Model of the SMS statistics program: loading message records from the
 * attributes of an exported XML log, the single-pass aggregation of a
 * message sequence into `Metrics`, and the flattening of the length
 * histogram into a list suitable for plotting.
 */
module ExtractSms {
  import opened Wrappers
  import opened Decimal

  /** Message types; `Code` gives the integer constants of the program (RECEIVED = 1, SENT = 2, UNKNOWN = 3). */
  datatype MsgType = Received | Sent | Unknown {
    function Code(): (c: int)
      ensures c == 1 <==> Received?
      ensures c == 2 <==> Sent?
      ensures c == 3 <==> Unknown?
    {
      match this
      case Received => 1
      case Sent => 2
      case Unknown => 3
    }
  }

  /**
   * One message record. The program stores the raw `time` attribute in the
   * field called `date`; `timestamp` is the whole number of seconds since the
   * epoch, before its conversion to a local calendar time.
   */
  datatype SmsMsg = SmsMsg(
    phoneNumber: string,
    msgType: MsgType,
    message: string,
    date: string,
    timestamp: int,
    messageLength: nat)

  /**
   * The statistics of one aggregation run. `histogram` is the `Counter` of
   * message lengths: the multiplicity of `L` is the count stored under key `L`.
   */
  datatype Metrics = Metrics(
    totalMessages: nat,
    averageLength: real,
    longest: SmsMsg,
    shortest: SmsMsg,
    histogram: multiset<nat>)

  /** The exceptions the core can raise: `KeyError`, `ValueError` from `int`, `StopIteration`. */
  datatype Error =
    | MissingAttribute(name: string)
    | InvalidInteger(text: string)
    | EmptyInput

  /** The attributes of one child element of the XML root. */
  type Attrs = map<string, string>

  /** The default `max_length` of the histogram projection. */
  const DefaultMaxLength: int := 100

  /** A record whose stored length is the length of its text, as every loaded record is. */
  ghost predicate WellFormed(m: SmsMsg) {
    m.messageLength == |m.message|
  }

  // ---------------------------------------------------------------------------
  // Loading records
  // ---------------------------------------------------------------------------

  /** The type-code lookup `msg_types.get(code, UNKNOWN)`. */
  function MsgTypeOf(code: string): (t: MsgType)
    ensures t == Received <==> code == "1"
    ensures t == Sent <==> code == "2"
    ensures t == Unknown <==> code != "1" && code != "2"
  {
    if code == "1" then Received
    else if code == "2" then Sent
    else Unknown
  }

  /** The type code a record of type `t` carries in the log. */
  function TypeCode(t: MsgType): string {
    match t
    case Received => "1"
    case Sent => "2"
    case Unknown => "3"
  }

  ghost predicate HasRequired(attrs: Attrs) {
    "address" in attrs && "type" in attrs && "body" in attrs && "time" in attrs && "date" in attrs
  }

  /**
   * The record built from one child's attributes. The arguments of the record
   * are evaluated left to right, so the first missing attribute among
   * address, type, body, time, date is the one reported, and a date that is
   * not an integer is reported only when all five are present.
   */
  function BuildTuple(attrs: Attrs): (r: Result<SmsMsg, Error>)
    ensures r.Success? <==> HasRequired(attrs) && ParseInt(attrs["date"]).Some?
    ensures r.Success? ==>
      && WellFormed(r.value)
      && r.value.phoneNumber == attrs["address"]
      && r.value.msgType == MsgTypeOf(attrs["type"])
      && r.value.message == attrs["body"]
      && r.value.date == attrs["time"]
      && r.value.timestamp * 1000 <= ParseInt(attrs["date"]).value < r.value.timestamp * 1000 + 1000
    ensures r == Failure(MissingAttribute("address")) <==> "address" !in attrs
    ensures r == Failure(MissingAttribute("type")) <==> "address" in attrs && "type" !in attrs
    ensures r == Failure(MissingAttribute("body")) <==> "address" in attrs && "type" in attrs && "body" !in attrs
    ensures r == Failure(MissingAttribute("time")) <==>
      "address" in attrs && "type" in attrs && "body" in attrs && "time" !in attrs
    ensures r == Failure(MissingAttribute("date")) <==>
      "address" in attrs && "type" in attrs && "body" in attrs && "time" in attrs && "date" !in attrs
    ensures r.Failure? && HasRequired(attrs) ==> r.error == InvalidInteger(attrs["date"])
  {
    if "address" !in attrs then Failure(MissingAttribute("address"))
    else if "type" !in attrs then Failure(MissingAttribute("type"))
    else if "body" !in attrs then Failure(MissingAttribute("body"))
    else if "time" !in attrs then Failure(MissingAttribute("time"))
    else if "date" !in attrs then Failure(MissingAttribute("date"))
    else
      match ParseInt(attrs["date"])
      case None => Failure(InvalidInteger(attrs["date"]))
      case Some(millis) =>
        Success(SmsMsg(attrs["address"], MsgTypeOf(attrs["type"]), attrs["body"], attrs["time"],
                       millis / 1000, |attrs["body"]|))
  }

  /** The attributes a record is written with in the log, given its date in milliseconds. */
  function AttrsOf(m: SmsMsg, millis: int): Attrs {
    map["address" := m.phoneNumber, "type" := TypeCode(m.msgType), "body" := m.message,
        "time" := m.date, "date" := FormatInt(millis)]
  }

  /** Loading a written record gives the record back: the loader loses nothing. */
  lemma BuildTupleRoundTrip(m: SmsMsg, millis: int)
    requires WellFormed(m)
    requires millis / 1000 == m.timestamp
    ensures BuildTuple(AttrsOf(m, millis)) == Success(m)
  {
    ParseFormatRoundTrip(millis);
    var attrs := AttrsOf(m, millis);
    assert HasRequired(attrs);
    assert attrs["date"] == FormatInt(millis);
    assert MsgTypeOf(attrs["type"]) == m.msgType;
    assert BuildTuple(attrs) == Success(SmsMsg(m.phoneNumber, m.msgType, m.message, m.date, millis / 1000, |m.message|));
  }

  ghost predicate AllLoad(root: seq<Attrs>) {
    forall i :: 0 <= i < |root| ==> BuildTuple(root[i]).Success?
  }

  /** The records of a log every child of which loads. */
  ghost function Loaded(root: seq<Attrs>): seq<SmsMsg>
    requires AllLoad(root)
  {
    seq(|root|, i requires 0 <= i < |root| => BuildTuple(root[i]).value)
  }

  /**
   * `build_tuples`: one record per child, in the children's order. The first
   * child that cannot be loaded aborts the whole load with its error.
   */
  method BuildTuples(root: seq<Attrs>) returns (r: Result<seq<SmsMsg>, Error>)
    ensures r.Success? <==> AllLoad(root)
    ensures r.Success? ==> r.value == Loaded(root)
    ensures r.Success? ==>
      && |r.value| == |root|
      && forall i :: 0 <= i < |root| ==>
           WellFormed(r.value[i]) && r.value[i].messageLength == |root[i]["body"]|
           && r.value[i].msgType == MsgTypeOf(root[i]["type"])
    ensures r.Failure? ==>
      exists k :: 0 <= k < |root| && BuildTuple(root[k]) == Failure(r.error)
        && forall i :: 0 <= i < k ==> BuildTuple(root[i]).Success?
  {
    var result: seq<SmsMsg> := [];
    for i := 0 to |root|
      invariant |result| == i
      invariant forall j :: 0 <= j < i ==> BuildTuple(root[j]).Success? && result[j] == BuildTuple(root[j]).value
    {
      var tuple := BuildTuple(root[i]);
      if tuple.Failure? {
        return Failure(tuple.error);
      }
      result := result + [tuple.value];
    }
    r := Success(result);
  }

  // ---------------------------------------------------------------------------
  // Aggregation
  // ---------------------------------------------------------------------------

  ghost function SumLengths(messages: seq<SmsMsg>): nat {
    if messages == [] then 0 else messages[0].messageLength + SumLengths(messages[1..])
  }

  lemma {:induction false} SumLengthsAppend(messages: seq<SmsMsg>, m: SmsMsg)
    ensures SumLengths(messages + [m]) == SumLengths(messages) + m.messageLength
  {
    if messages != [] {
      assert (messages + [m])[1..] == messages[1..] + [m];
      SumLengthsAppend(messages[1..], m);
    }
  }

  lemma SumLengthsExtend(messages: seq<SmsMsg>, i: nat)
    requires 1 <= i < |messages|
    ensures SumLengths(messages[1..i + 1]) == SumLengths(messages[1..i]) + messages[i].messageLength
  {
    assert messages[1..i + 1] == messages[1..i] + [messages[i]];
    SumLengthsAppend(messages[1..i], messages[i]);
  }

  /** The stored lengths of the messages, in order (the list `msg_lengths`). */
  function Lengths(messages: seq<SmsMsg>): (r: seq<nat>)
    ensures |r| == |messages|
    ensures forall i :: 0 <= i < |messages| ==> r[i] == messages[i].messageLength
  {
    seq(|messages|, i requires 0 <= i < |messages| => messages[i].messageLength)
  }

  /**
   * The running total as the program computes it: seeded with the length of
   * the first message's text, then increased by the stored length of each
   * further message.
   */
  ghost function SeededTotal(messages: seq<SmsMsg>): nat
    requires messages != []
  {
    |messages[0].message| + SumLengths(messages[1..])
  }

  /** `messages[k]` has the greatest length, and every earlier message is strictly shorter. */
  ghost predicate IsFirstLongest(messages: seq<SmsMsg>, k: int) {
    && 0 <= k < |messages|
    && (forall j :: 0 <= j < |messages| ==> messages[j].messageLength <= messages[k].messageLength)
    && (forall j :: 0 <= j < k ==> messages[j].messageLength < messages[k].messageLength)
  }

  /** `messages[k]` has the least length, and every earlier message is strictly longer. */
  ghost predicate IsFirstShortest(messages: seq<SmsMsg>, k: int) {
    && 0 <= k < |messages|
    && (forall j :: 0 <= j < |messages| ==> messages[k].messageLength <= messages[j].messageLength)
    && (forall j :: 0 <= j < k ==> messages[k].messageLength < messages[j].messageLength)
  }

  /** `m` is the summary of the non-empty sequence `messages`. */
  ghost predicate Summarises(messages: seq<SmsMsg>, m: Metrics) {
    && messages != []
    && m.totalMessages == |messages|
    && m.averageLength == SeededTotal(messages) as real / |messages| as real
    && (exists k :: IsFirstLongest(messages, k) && m.longest == messages[k])
    && (exists k :: IsFirstShortest(messages, k) && m.shortest == messages[k])
    && m.histogram == multiset(Lengths(messages))
  }

  /**
   * `avg_collection`: one pass over the messages. The first message seeds the
   * state; a later message replaces the longest (shortest) only when it is
   * strictly longer (shorter). An empty input raises `StopIteration`.
   */
  method AvgCollection(messages: seq<SmsMsg>) returns (r: Result<Metrics, Error>)
    ensures r.Failure? <==> messages == []
    ensures r.Failure? ==> r.error == EmptyInput
    ensures r.Success? ==> Summarises(messages, r.value)
  {
    if messages == [] {
      return Failure(EmptyInput);
    }
    var longest := messages[0];
    var shortest := longest;
    var total := |longest.message|;
    var count := 1;
    var msgLengths := [longest.messageLength];
    ghost var li, si := 0, 0;
    for i := 1 to |messages|
      invariant count == i
      invariant total == |messages[0].message| + SumLengths(messages[1..i])
      invariant |msgLengths| == i
      invariant forall j :: 0 <= j < i ==> msgLengths[j] == messages[j].messageLength
      invariant 0 <= li < i && longest == messages[li]
      invariant forall j :: 0 <= j < i ==> messages[j].messageLength <= longest.messageLength
      invariant forall j :: 0 <= j < li ==> messages[j].messageLength < longest.messageLength
      invariant 0 <= si < i && shortest == messages[si]
      invariant forall j :: 0 <= j < i ==> shortest.messageLength <= messages[j].messageLength
      invariant forall j :: 0 <= j < si ==> shortest.messageLength < messages[j].messageLength
    {
      var msg := messages[i];
      SumLengthsExtend(messages, i);
      total := total + msg.messageLength;
      count := count + 1;
      if msg.messageLength > longest.messageLength {
        longest := msg;
        li := i;
      }
      if msg.messageLength < shortest.messageLength {
        shortest := msg;
        si := i;
      }
      msgLengths := msgLengths + [msg.messageLength];
    }
    var metrics := Metrics(count, total as real / count as real, longest, shortest, multiset(msgLengths));
    assert messages[1..|messages|] == messages[1..];
    SummarisesIntro(messages, metrics, li, si, msgLengths);
    r := Success(metrics);
  }

  /** The final state of the pass is the summary of the whole sequence. */
  lemma SummarisesIntro(messages: seq<SmsMsg>, m: Metrics, li: int, si: int, lengths: seq<nat>)
    requires messages != [] && m.totalMessages == |messages|
    requires m.averageLength == SeededTotal(messages) as real / |messages| as real
    requires IsFirstLongest(messages, li) && m.longest == messages[li]
    requires IsFirstShortest(messages, si) && m.shortest == messages[si]
    requires |lengths| == |messages| && forall j :: 0 <= j < |messages| ==> lengths[j] == messages[j].messageLength
    requires m.histogram == multiset(lengths)
    ensures Summarises(messages, m)
  {
    assert lengths == Lengths(messages);
  }

  /** The number of messages whose stored length is `len`. */
  ghost function CountOfLength(messages: seq<SmsMsg>, len: nat): nat {
    if messages == [] then 0
    else (if messages[0].messageLength == len then 1 else 0) + CountOfLength(messages[1..], len)
  }

  /** The histogram maps each length to the number of messages of that length. */
  lemma {:induction false} HistogramCounts(messages: seq<SmsMsg>, len: nat)
    ensures multiset(Lengths(messages))[len] == CountOfLength(messages, len)
  {
    if messages != [] {
      assert Lengths(messages) == [messages[0].messageLength] + Lengths(messages[1..]);
      HistogramCounts(messages[1..], len);
    }
  }

  /** The counts of the histogram add up to the number of messages. */
  lemma HistogramTotal(messages: seq<SmsMsg>, m: Metrics)
    requires Summarises(messages, m)
    ensures |m.histogram| == m.totalMessages
  {
  }

  /** When the first record is well formed, the average is the mean stored length. */
  lemma AverageIsMean(messages: seq<SmsMsg>, m: Metrics)
    requires Summarises(messages, m)
    requires WellFormed(messages[0])
    ensures m.averageLength == SumLengths(messages) as real / m.totalMessages as real
  {
    assert SeededTotal(messages) == SumLengths(messages);
  }

  /** The longest and shortest lengths are the largest and smallest keys of the histogram. */
  lemma ExtremesBoundHistogram(messages: seq<SmsMsg>, m: Metrics)
    requires Summarises(messages, m)
    ensures m.longest.messageLength in m.histogram && m.shortest.messageLength in m.histogram
    ensures forall len :: len in m.histogram ==> m.shortest.messageLength <= len <= m.longest.messageLength
  {
    var lengths := Lengths(messages);
    var k :| IsFirstLongest(messages, k) && m.longest == messages[k];
    var q :| IsFirstShortest(messages, q) && m.shortest == messages[q];
    assert lengths[k] == m.longest.messageLength;
    assert lengths[q] == m.shortest.messageLength;
    forall len | len in m.histogram
      ensures m.shortest.messageLength <= len <= m.longest.messageLength
    {
      assert len in lengths;
      var j :| 0 <= j < |lengths| && lengths[j] == len;
    }
  }

  /** The summary of a sequence is determined by the sequence. */
  lemma SummaryIsUnique(messages: seq<SmsMsg>, m1: Metrics, m2: Metrics)
    requires Summarises(messages, m1) && Summarises(messages, m2)
    ensures m1 == m2
  {
    var a1 :| IsFirstLongest(messages, a1) && m1.longest == messages[a1];
    var a2 :| IsFirstLongest(messages, a2) && m2.longest == messages[a2];
    var b1 :| IsFirstShortest(messages, b1) && m1.shortest == messages[b1];
    var b2 :| IsFirstShortest(messages, b2) && m2.shortest == messages[b2];
  }

  /**
   * Three messages, "hi there" received, "ok" sent, "hi there" received again
   * later: three messages of average length 6, the first "hi there" (not the
   * later one of equal length) is the longest, "ok" the shortest, and lengths 8
   * and 2 occur twice and once.
   */
  lemma ThreeMessageSummary(number: string)
    ensures
      var first := SmsMsg(number, Received, "hi there", "t1", 1, 8);
      var reply := SmsMsg(number, Sent, "ok", "t2", 2, 2);
      var third := SmsMsg(number, Received, "hi there", "t3", 3, 8);
      var messages := [first, reply, third];
      && Summarises(messages, Metrics(3, 6.0, first, reply, multiset{8, 2, 8}))
      && !Summarises(messages, Metrics(3, 6.0, third, reply, multiset{8, 2, 8}))
  {
    var first := SmsMsg(number, Received, "hi there", "t1", 1, 8);
    var reply := SmsMsg(number, Sent, "ok", "t2", 2, 2);
    var third := SmsMsg(number, Received, "hi there", "t3", 3, 8);
    var messages := [first, reply, third];
    assert messages[1..][1..][1..] == [];
    assert SumLengths(messages[1..][1..]) == 8;
    assert SeededTotal(messages) == 18;
    assert IsFirstLongest(messages, 0);
    assert IsFirstShortest(messages, 1);
    assert Lengths(messages) == [8, 2, 8];
  }

  // ---------------------------------------------------------------------------
  // Histogram projection
  // ---------------------------------------------------------------------------

  /**
   * The part of histogram `h` at lengths up to `maxLength`; its size is the
   * sum of the counts of those lengths.
   */
  ghost function AtMost(h: multiset<nat>, maxLength: int): (p: multiset<nat>)
    ensures forall len :: p[len] == if len <= maxLength then h[len] else 0
    decreases |h|
  {
    if h == multiset{} then multiset{}
    else
      var len :| len in h;
      (if len <= maxLength then multiset{len} else multiset{}) + AtMost(h - multiset{len}, maxLength)
  }

  /** The lengths in `s` form contiguous runs: equal elements are never separated by a different one. */
  ghost predicate Grouped(s: seq<nat>) {
    forall i, j, k :: 0 <= i < j < k < |s| && s[i] == s[k] ==> s[j] == s[i]
  }

  lemma GroupedAppendRun(pre: seq<nat>, run: seq<nat>, len: nat)
    requires Grouped(pre) && len !in pre
    requires forall i :: 0 <= i < |run| ==> run[i] == len
    ensures Grouped(pre + run)
  {
    var s := pre + run;
    forall i, j, k | 0 <= i < j < k < |s| && s[i] == s[k]
      ensures s[j] == s[i]
    {
      if k < |pre| {
        assert s[i] == pre[i] && s[j] == pre[j] && s[k] == pre[k];
      }
    }
  }

  /**
   * `histogram_d3_data`: every length `L <= maxLength` of the histogram,
   * repeated as often as it occurs. The lengths are visited in an unspecified
   * order (that of `Counter.items()`), each in one run of copies.
   */
  method HistogramD3Data(metrics: Metrics, maxLength: int) returns (result: seq<nat>)
    ensures multiset(result) == AtMost(metrics.histogram, maxLength)
    ensures |result| == |AtMost(metrics.histogram, maxLength)|
    ensures forall i :: 0 <= i < |result| ==> result[i] <= maxLength
    ensures Grouped(result)
  {
    var h := metrics.histogram;
    result := [];
    var total := 0;
    var items: set<nat> := set len | len in h;
    while items != {}
      invariant forall len :: len in items ==> len in h
      invariant total == |result|
      invariant forall len :: multiset(result)[len] == (if len <= maxLength && len !in items then h[len] else 0)
      invariant Grouped(result)
      decreases items
    {
      var len: nat :| len in items;
      var count := h[len];
      ghost var pre := result;
      if len <= maxLength {
        total := total + count;
        for copies := 0 to count
          invariant result == pre + Run(len, copies)
        {
          assert Run(len, copies + 1) == Run(len, copies) + [len];
          result := result + [len];
        }
        assert len !in multiset(pre);
        GroupedAppendRun(pre, Run(len, count), len);
      }
      ProjectStep(h, maxLength, items, len, pre, result);
      items := items - {len};
    }
    ProjectionComplete(h, maxLength, result);
  }

  /** An output holding each length up to the bound with its full count is the projection, and stays within the bound. */
  lemma ProjectionComplete(h: multiset<nat>, maxLength: int, result: seq<nat>)
    requires forall x :: multiset(result)[x] == if x <= maxLength then h[x] else 0
    ensures multiset(result) == AtMost(h, maxLength)
    ensures |result| == |AtMost(h, maxLength)|
    ensures forall i :: 0 <= i < |result| ==> result[i] <= maxLength
  {
    assert multiset(result) == AtMost(h, maxLength);
    assert |result| == |multiset(result)|;
    forall i | 0 <= i < |result|
      ensures result[i] <= maxLength
    {
      assert multiset(result)[result[i]] > 0;
    }
  }

  /** Visiting one more length of the histogram extends the projection by that length's copies. */
  lemma ProjectStep(h: multiset<nat>, maxLength: int, items: set<nat>, len: nat, pre: seq<nat>, result: seq<nat>)
    requires len in items
    requires forall x :: multiset(pre)[x] == (if x <= maxLength && x !in items then h[x] else 0)
    requires result == if len <= maxLength then pre + Run(len, h[len]) else pre
    ensures forall x :: multiset(result)[x] == (if x <= maxLength && x !in items - {len} then h[x] else 0)
  {
    MultisetOfRun(len, h[len]);
  }

  /** `n` copies of `len`. */
  function Run(len: nat, n: nat): (r: seq<nat>)
    ensures |r| == n
  {
    seq(n, _ => len)
  }

  lemma {:induction false} MultisetOfRun(len: nat, n: nat)
    ensures forall x :: multiset(Run(len, n))[x] == if x == len then n else 0
  {
    if n > 0 {
      assert Run(len, n) == Run(len, n - 1) + [len];
      MultisetOfRun(len, n - 1);
    }
  }

  /** With no length above `maxLength`, the projection keeps the whole histogram. */
  lemma AtMostWhole(h: multiset<nat>, maxLength: int)
    requires forall len :: len in h ==> len <= maxLength
    ensures AtMost(h, maxLength) == h
  {
    assert forall len :: AtMost(h, maxLength)[len] == h[len];
  }

  /** A projection whose bound reaches the longest message has one entry per message. */
  lemma ProjectionCoversAllMessages(messages: seq<SmsMsg>, m: Metrics, maxLength: int)
    requires Summarises(messages, m)
    requires m.longest.messageLength <= maxLength
    ensures |AtMost(m.histogram, maxLength)| == m.totalMessages
  {
    ExtremesBoundHistogram(messages, m);
    AtMostWhole(m.histogram, maxLength);
  }

  /** A bound below every length yields an empty projection. */
  lemma ProjectionBelowShortest(messages: seq<SmsMsg>, m: Metrics, maxLength: int)
    requires Summarises(messages, m)
    requires maxLength < m.shortest.messageLength
    ensures AtMost(m.histogram, maxLength) == multiset{}
  {
    ExtremesBoundHistogram(messages, m);
    assert forall len :: AtMost(m.histogram, maxLength)[len] == 0;
  }

  // ---------------------------------------------------------------------------
  // The program's three reports
  // ---------------------------------------------------------------------------

  /** The messages of type `t`, in order (the `ifilter` on the type). */
  function OfType(messages: seq<SmsMsg>, t: MsgType): (r: seq<SmsMsg>)
    ensures |r| <= |messages|
    ensures forall i :: 0 <= i < |r| ==> r[i].msgType == t
    ensures forall m :: m in r <==> m in messages && m.msgType == t
  {
    if messages == [] then []
    else (if messages[0].msgType == t then [messages[0]] else []) + OfType(messages[1..], t)
  }

  /** The selection holds each message of the given type as often as the log does, and no other message. */
  lemma {:induction false} OfTypeCounts(messages: seq<SmsMsg>, t: MsgType)
    ensures forall m :: multiset(OfType(messages, t))[m] == if m.msgType == t then multiset(messages)[m] else 0
  {
    if messages != [] {
      assert messages == [messages[0]] + messages[1..];
      OfTypeCounts(messages[1..], t);
    }
  }

  /** Filtering keeps the order of the log: it distributes over concatenation. */
  lemma {:induction false} OfTypeAppend(a: seq<SmsMsg>, b: seq<SmsMsg>, t: MsgType)
    ensures OfType(a + b, t) == OfType(a, t) + OfType(b, t)
  {
    if a != [] {
      var head := if a[0].msgType == t then [a[0]] else [];
      assert (a + b)[0] == a[0];
      assert (a + b)[1..] == a[1..] + b;
      assert OfType(a + b, t) == head + OfType(a[1..] + b, t);
      OfTypeAppend(a[1..], b, t);
      assert OfType(a, t) == head + OfType(a[1..], t);
      assert head + (OfType(a[1..], t) + OfType(b, t)) == (head + OfType(a[1..], t)) + OfType(b, t);
    } else {
      assert a + b == b;
    }
  }

  /** The selection of a log of well-formed records holds only well-formed records. */
  lemma OfTypeWellFormed(messages: seq<SmsMsg>, t: MsgType)
    requires forall i :: 0 <= i < |messages| ==> WellFormed(messages[i])
    ensures forall i :: 0 <= i < |OfType(messages, t)| ==> WellFormed(OfType(messages, t)[i])
  {
    forall i | 0 <= i < |OfType(messages, t)|
      ensures WellFormed(OfType(messages, t)[i])
    {
      var m := OfType(messages, t)[i];
      assert m in OfType(messages, t);
      var j :| 0 <= j < |messages| && messages[j] == m;
    }
  }

  /** Received, sent and unknown messages partition the log. */
  lemma {:induction false} TypesPartition(messages: seq<SmsMsg>)
    ensures |OfType(messages, Received)| + |OfType(messages, Sent)| + |OfType(messages, Unknown)| == |messages|
  {
    if messages != [] {
      TypesPartition(messages[1..]);
    }
  }

  /** What the program reports: three summaries and three histogram lists. */
  datatype Report = Report(
    received: Metrics,
    sent: Metrics,
    all: Metrics,
    allHistogram: seq<nat>,
    sentHistogram: seq<nat>,
    receivedHistogram: seq<nat>)

  /**
   * The computation of the program's entry point without its output: load,
   * summarise received, sent and all messages, then project the histograms
   * with the default bound. It fails on the first child that cannot be loaded,
   * and otherwise when there is no received or no sent message.
   */
  method Analyze(root: seq<Attrs>) returns (r: Result<Report, Error>)
    ensures r.Success? <==>
      AllLoad(root) && OfType(Loaded(root), Received) != [] && OfType(Loaded(root), Sent) != []
    ensures r.Failure? && AllLoad(root) ==> r.error == EmptyInput
    ensures r.Failure? && !AllLoad(root) ==>
      exists k :: 0 <= k < |root| && BuildTuple(root[k]) == Failure(r.error)
        && forall i :: 0 <= i < k ==> BuildTuple(root[i]).Success?
    ensures r.Success? ==>
      var messages := Loaded(root);
      && Summarises(OfType(messages, Received), r.value.received)
      && Summarises(OfType(messages, Sent), r.value.sent)
      && Summarises(messages, r.value.all)
      && r.value.received.averageLength ==
           SumLengths(OfType(messages, Received)) as real / r.value.received.totalMessages as real
      && r.value.sent.averageLength == SumLengths(OfType(messages, Sent)) as real / r.value.sent.totalMessages as real
      && r.value.all.averageLength == SumLengths(messages) as real / |messages| as real
      && multiset(r.value.allHistogram) == AtMost(r.value.all.histogram, DefaultMaxLength)
      && multiset(r.value.sentHistogram) == AtMost(r.value.sent.histogram, DefaultMaxLength)
      && multiset(r.value.receivedHistogram) == AtMost(r.value.received.histogram, DefaultMaxLength)
      && Grouped(r.value.allHistogram) && Grouped(r.value.sentHistogram) && Grouped(r.value.receivedHistogram)
  {
    var loaded := BuildTuples(root);
    if loaded.Failure? {
      return Failure(loaded.error);
    }
    var messages := loaded.value;
    var received := AvgCollection(OfType(messages, Received));
    if received.Failure? {
      return Failure(received.error);
    }
    var sent := AvgCollection(OfType(messages, Sent));
    if sent.Failure? {
      return Failure(sent.error);
    }
    var all := AvgCollection(messages);
    assert all.Success?;
    assert WellFormed(messages[0]);
    AverageIsMean(messages, all.value);
    OfTypeWellFormed(messages, Received);
    AverageIsMean(OfType(messages, Received), received.value);
    OfTypeWellFormed(messages, Sent);
    AverageIsMean(OfType(messages, Sent), sent.value);
    var allHistogram := HistogramD3Data(all.value, DefaultMaxLength);
    var sentHistogram := HistogramD3Data(sent.value, DefaultMaxLength);
    var receivedHistogram := HistogramD3Data(received.value, DefaultMaxLength);
    r := Success(Report(received.value, sent.value, all.value, allHistogram, sentHistogram, receivedHistogram));
  }
}
