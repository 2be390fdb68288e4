/** The log of a deployment: a bounded buffer of past lines and live channels to subscribers. Each method is
    one section the program runs under the lock, or one non-blocking send outside it; writers, readers and
    cancellations interleave between methods in any order. */
module LogHub {

  const MAX_LINES: nat := 5000
  const DEFAULT_CAPACITY: nat := 64

  /** What travels on a channel: the n-th log line, or an event that is never buffered. */
  datatype Item = Log(n: nat, text: string) | Event(text: string)

  /** A subscriber's channel; closes counts how often it was closed. */
  datatype Channel = Channel(queue: seq<Item>, capacity: nat, closes: nat)

  /** A writer between its locked section and the end of its sends. */
  datatype Sending = Sending(item: Item, targets: seq<nat>)

  /** What became of a line for one subscriber. */
  datatype Fate = Waiting | Delivered | Dropped

  /** A subscriber's record: how many lines there were when it joined, what it was given, what happened to
      every later line, everything put on its channel and everything it has read. */
  datatype Record = Record(joined: nat, history: seq<string>, fate: seq<Fate>, sent: seq<Item>, received: seq<Item>)

  function Last(s: seq<string>, n: nat): seq<string> { if |s| <= n then s else s[|s| - n..] }

  /** The numbers of the log lines in a sequence of items. */
  function Numbers(items: seq<Item>): seq<nat> {
    if items == [] then []
    else
      var before, last := Numbers(items[..|items| - 1]), items[|items| - 1];
      if last.Log? then before + [last.n] else before
  }

  lemma NumbersAppend(items: seq<Item>, item: Item)
    ensures Numbers(items + [item]) == Numbers(items) + (if item.Log? then [item.n] else [])
  {
    assert (items + [item])[..|items|] == items;
  }

  predicate Increasing(s: seq<nat>) { forall i, j | 0 <= i < j < |s| :: s[i] < s[j] }

  predicate DistinctNats(s: seq<nat>) { forall i, j | 0 <= i < j < |s| :: s[i] != s[j] }

  /** A sequence without its k-th element. */
  function Without<T>(s: seq<T>, k: nat): seq<T>
    requires k < |s|
  {
    s[..k] + s[k + 1..]
  }

  lemma BufferStep(appended: seq<string>, line: string)
    ensures var lines := Last(appended, MAX_LINES);
      Last(appended + [line], MAX_LINES) == (if |lines| >= MAX_LINES then lines[1..] else lines) + [line]
  {
  }

  /** The lines a subscriber was given end where the live ones begin. */
  ghost predicate RecordOk(r: Record, ch: Channel, appended: seq<string>) {
    && r.joined <= |appended|
    && r.history == Last(appended[..r.joined], MAX_LINES)
    && r.joined + |r.fate| <= |appended|
    && r.received + ch.queue == r.sent
    && |ch.queue| <= ch.capacity
    && DistinctNats(Numbers(r.sent))
    && (forall k | 0 <= k < |r.sent| && r.sent[k].Log? :: r.sent[k].n < |appended| && r.sent[k].text == appended[r.sent[k].n])
    && (forall n :: n in Numbers(r.sent) <==> r.joined <= n < r.joined + |r.fate| && r.fate[n - r.joined].Delivered?)
  }

  /** A registered subscriber's line is waiting exactly while some writer still has to send it. */
  ghost predicate Accounted(r: Record, c: nat, appended: seq<string>, inflight: seq<Sending>) {
    && r.joined + |r.fate| == |appended|
    && (forall n | r.joined <= n < |appended| :: r.fate[n - r.joined].Waiting? <==> Pending(inflight, n, c))
  }

  ghost predicate Pending(inflight: seq<Sending>, n: nat, c: nat) {
    exists k :: 0 <= k < |inflight| && inflight[k].item.Log? && inflight[k].item.n == n && c in inflight[k].targets
  }

  ghost predicate SendingOk(s: Sending, appended: seq<string>, records: seq<Record>) {
    && (s.item.Log? ==> s.item.n < |appended| && s.item.text == appended[s.item.n])
    && DistinctNats(s.targets)
    && (forall c | c in s.targets :: c < |records| && (s.item.Log? ==> records[c].joined <= s.item.n))
  }

  // ---- the invariant, part by part ----

  ghost predicate Members(subs: seq<nat>, channels: seq<Channel>) {
    && DistinctNats(subs)
    && (forall c | c in subs :: c < |channels|)
    && (forall c: nat | c < |channels| :: channels[c].closes == if c in subs then 0 else 1)
  }

  ghost predicate RecordsOk(records: seq<Record>, channels: seq<Channel>, appended: seq<string>) {
    |records| == |channels| && forall c: nat | c < |channels| :: RecordOk(records[c], channels[c], appended)
  }

  ghost predicate AllAccounted(subs: seq<nat>, records: seq<Record>, appended: seq<string>, inflight: seq<Sending>) {
    forall c | c in subs :: c < |records| && Accounted(records[c], c, appended, inflight)
  }

  ghost predicate SendingsOk(inflight: seq<Sending>, appended: seq<string>, records: seq<Record>) {
    && (forall k | 0 <= k < |inflight| :: SendingOk(inflight[k], appended, records))
    && (forall j, k | 0 <= j < k < |inflight| && inflight[j].item.Log? && inflight[k].item.Log? :: inflight[j].item.n != inflight[k].item.n)
  }

  ghost predicate SomeLog(inflight: seq<Sending>) { exists k :: 0 <= k < |inflight| && inflight[k].item.Log? }

  /** With one writer at a time, lines reach every channel in the order they were appended. */
  ghost predicate InOrder(inflight: seq<Sending>, appended: seq<string>, records: seq<Record>) {
    && (forall k | 0 <= k < |inflight| && inflight[k].item.Log? :: inflight[k].item.n == |appended| - 1)
    && (forall c: nat | c < |records| :: Increasing(Numbers(records[c].sent)))
  }

  // ---- appending a line ----

  function Grown(records: seq<Record>, subs: seq<nat>): seq<Record> {
    seq(|records|, c requires 0 <= c < |records| => if c in subs then records[c].(fate := records[c].fate + [Waiting]) else records[c])
  }

  lemma GrownRecordOk(r: Record, ch: Channel, appended: seq<string>, line: string, registered: bool)
    requires RecordOk(r, ch, appended) && (registered ==> r.joined + |r.fate| == |appended|)
    ensures RecordOk(if registered then r.(fate := r.fate + [Waiting]) else r, ch, appended + [line])
  {
    assert (appended + [line])[..r.joined] == appended[..r.joined];
  }

  lemma GrownRecordsOk(records: seq<Record>, channels: seq<Channel>, appended: seq<string>, line: string, subs: seq<nat>, inflight: seq<Sending>)
    requires RecordsOk(records, channels, appended) && AllAccounted(subs, records, appended, inflight)
    ensures RecordsOk(Grown(records, subs), channels, appended + [line])
  {
    forall c: nat | c < |channels| ensures RecordOk(Grown(records, subs)[c], channels[c], appended + [line]) {
      GrownRecordOk(records[c], channels[c], appended, line, c in subs);
    }
  }

  lemma GrownAccounted(r: Record, c: nat, appended: seq<string>, line: string, inflight: seq<Sending>, subs: seq<nat>)
    requires Accounted(r, c, appended, inflight) && c in subs
    requires forall k | 0 <= k < |inflight| && inflight[k].item.Log? :: inflight[k].item.n < |appended|
    ensures Accounted(r.(fate := r.fate + [Waiting]), c, appended + [line], inflight + [Sending(Log(|appended|, line), subs)])
  {
    var more := inflight + [Sending(Log(|appended|, line), subs)];
    forall n | r.joined <= n <= |appended| ensures Pending(more, n, c) <==> n == |appended| || Pending(inflight, n, c) {
      if n == |appended| {
        assert more[|inflight|].item.n == n;
      } else if Pending(inflight, n, c) {
        var k :| 0 <= k < |inflight| && inflight[k].item.Log? && inflight[k].item.n == n && c in inflight[k].targets;
        assert more[k].item.n == n;
      }
    }
  }

  lemma GrownAllAccounted(subs: seq<nat>, records: seq<Record>, appended: seq<string>, line: string, inflight: seq<Sending>)
    requires AllAccounted(subs, records, appended, inflight) && SendingsOk(inflight, appended, records)
    ensures AllAccounted(subs, Grown(records, subs), appended + [line], inflight + [Sending(Log(|appended|, line), subs)])
  {
    forall c | c in subs ensures Accounted(Grown(records, subs)[c], c, appended + [line], inflight + [Sending(Log(|appended|, line), subs)]) {
      GrownAccounted(records[c], c, appended, line, inflight, subs);
    }
  }

  lemma GrownSendings(inflight: seq<Sending>, appended: seq<string>, line: string, records: seq<Record>, channels: seq<Channel>, subs: seq<nat>)
    requires SendingsOk(inflight, appended, records) && Members(subs, channels) && RecordsOk(records, channels, appended)
    ensures SendingsOk(inflight + [Sending(Log(|appended|, line), subs)], appended + [line], Grown(records, subs))
  {
    forall k | 0 <= k < |inflight| ensures SendingOk(inflight[k], appended + [line], Grown(records, subs)) {
      assert SendingOk(inflight[k], appended, records);
    }
    assert SendingOk(Sending(Log(|appended|, line), subs), appended + [line], Grown(records, subs));
  }

  lemma GrownInOrder(inflight: seq<Sending>, appended: seq<string>, line: string, records: seq<Record>, subs: seq<nat>)
    requires InOrder(inflight, appended, records) && !SomeLog(inflight)
    ensures InOrder(inflight + [Sending(Log(|appended|, line), subs)], appended + [line], Grown(records, subs))
  {
  }

  // ---- one send ----

  /** The writer's sends without the first one. */
  function Sent(inflight: seq<Sending>, k: nat): seq<Sending>
    requires k < |inflight| && inflight[k].targets != []
  {
    inflight[k := inflight[k].(targets := inflight[k].targets[1..])]
  }

  /** After a send the line is no longer pending for its target, and nothing else has changed. */
  lemma PendingAfter(inflight: seq<Sending>, k: nat, appended: seq<string>, records: seq<Record>, n: nat, d: nat)
    requires SendingsOk(inflight, appended, records) && k < |inflight| && inflight[k].targets != []
    ensures var s := inflight[k];
      Pending(Sent(inflight, k), n, d) <==> Pending(inflight, n, d) && !(s.item.Log? && s.item.n == n && d == s.targets[0])
  {
    var s, after := inflight[k], Sent(inflight, k);
    assert SendingOk(s, appended, records);
    if Pending(inflight, n, d) {
      var j :| 0 <= j < |inflight| && inflight[j].item.Log? && inflight[j].item.n == n && d in inflight[j].targets;
      if !(s.item.Log? && s.item.n == n && d == s.targets[0]) {
        assert after[j].item.n == n && d in after[j].targets;
      }
    }
    if Pending(after, n, d) {
      var j :| 0 <= j < |after| && after[j].item.Log? && after[j].item.n == n && d in after[j].targets;
      assert inflight[j].item.n == n && d in inflight[j].targets;
    }
  }

  /** What a send does to its target's record. */
  function Marked(r: Record, item: Item, fits: bool): Record {
    var told := if item.Log? && r.joined <= item.n < r.joined + |r.fate| then r.(fate := r.fate[item.n - r.joined := if fits then Delivered else Dropped]) else r;
    if fits then told.(sent := r.sent + [item]) else told
  }

  lemma MarkedRecordOk(r: Record, ch: Channel, appended: seq<string>, item: Item, fits: bool)
    requires RecordOk(r, ch, appended)
    requires item.Log? ==>
      r.joined <= item.n < r.joined + |r.fate| && r.fate[item.n - r.joined].Waiting? && item.text == appended[item.n]
    requires fits ==> |ch.queue| < ch.capacity
    ensures RecordOk(Marked(r, item, fits), if fits then ch.(queue := ch.queue + [item]) else ch, appended)
  {
    NumbersAppend(r.sent, item);
    var t := Marked(r, item, fits);
    if item.Log? && fits {
      assert item.n !in Numbers(r.sent);
      assert Numbers(t.sent) == Numbers(r.sent) + [item.n];
      forall n ensures n in Numbers(t.sent) <==> t.joined <= n < t.joined + |t.fate| && t.fate[n - t.joined].Delivered? {
        assert n in Numbers(t.sent) <==> n in Numbers(r.sent) || n == item.n;
      }
    }
    if fits {
      assert r.received + (ch.queue + [item]) == r.received + ch.queue + [item];
    }
  }

  lemma MarkedAccounted(r: Record, c: nat, appended: seq<string>, inflight: seq<Sending>, records: seq<Record>, k: nat, fits: bool)
    requires SendingsOk(inflight, appended, records) && k < |inflight| && inflight[k].targets != [] && c == inflight[k].targets[0]
    requires Accounted(r, c, appended, inflight) && (inflight[k].item.Log? ==> r.joined <= inflight[k].item.n < |appended|)
    ensures Accounted(Marked(r, inflight[k].item, fits), c, appended, Sent(inflight, k))
  {
    forall n: nat ensures Pending(Sent(inflight, k), n, c) <==> Pending(inflight, n, c) && !(inflight[k].item.Log? && inflight[k].item.n == n) {
      PendingAfter(inflight, k, appended, records, n, c);
    }
  }

  lemma OthersAccounted(r: Record, d: nat, appended: seq<string>, inflight: seq<Sending>, records: seq<Record>, k: nat)
    requires SendingsOk(inflight, appended, records) && k < |inflight| && inflight[k].targets != [] && d != inflight[k].targets[0]
    requires Accounted(r, d, appended, inflight)
    ensures Accounted(r, d, appended, Sent(inflight, k))
  {
    forall n: nat ensures Pending(Sent(inflight, k), n, d) <==> Pending(inflight, n, d) {
      PendingAfter(inflight, k, appended, records, n, d);
    }
  }

  lemma SentSendings(inflight: seq<Sending>, k: nat, appended: seq<string>, records: seq<Record>, after: seq<Record>)
    requires SendingsOk(inflight, appended, records) && k < |inflight| && inflight[k].targets != []
    requires |after| == |records| && forall c: nat | c < |records| :: after[c].joined == records[c].joined
    ensures SendingsOk(Sent(inflight, k), appended, after)
  {
    forall j | 0 <= j < |inflight| ensures SendingOk(Sent(inflight, k)[j], appended, after) {
      assert SendingOk(inflight[j], appended, records);
      assert forall c | c in Sent(inflight, k)[j].targets :: c in inflight[j].targets;
    }
  }

  /** A line that comes after everything on the channel keeps the order. */
  lemma LastIsIncreasing(numbers: seq<nat>, n: nat)
    requires Increasing(numbers) && forall m | m in numbers :: m < n
    ensures Increasing(numbers + [n])
  {
    assert forall i | 0 <= i < |numbers| :: numbers[i] in numbers;
  }

  lemma MarkedIncreasing(r: Record, ch: Channel, appended: seq<string>, item: Item, fits: bool)
    requires RecordOk(r, ch, appended) && Increasing(Numbers(r.sent))
    requires item.Log? ==> r.joined <= item.n < r.joined + |r.fate| && r.fate[item.n - r.joined].Waiting? && item.n == |appended| - 1
    ensures Increasing(Numbers(Marked(r, item, fits).sent))
  {
    NumbersAppend(r.sent, item);
    if item.Log? {
      LastIsIncreasing(Numbers(r.sent), item.n);
    }
  }

  lemma SentInOrder(inflight: seq<Sending>, k: nat, appended: seq<string>, records: seq<Record>, c: nat, fits: bool, channels: seq<Channel>)
    requires InOrder(inflight, appended, records) && RecordsOk(records, channels, appended)
    requires k < |inflight| && inflight[k].targets != [] && c < |records|
    requires inflight[k].item.Log? ==>
      && records[c].joined <= inflight[k].item.n < records[c].joined + |records[c].fate|
      && records[c].fate[inflight[k].item.n - records[c].joined].Waiting?
    ensures InOrder(Sent(inflight, k), appended, records[c := Marked(records[c], inflight[k].item, fits)])
  {
    MarkedIncreasing(records[c], channels[c], appended, inflight[k].item, fits);
  }

  // ---- joining ----

  lemma JoinKeeps(subs: seq<nat>, channels: seq<Channel>, records: seq<Record>, appended: seq<string>, inflight: seq<Sending>, history: seq<string>, capacity: nat)
    requires Members(subs, channels) && RecordsOk(records, channels, appended) && AllAccounted(subs, records, appended, inflight)
    requires SendingsOk(inflight, appended, records) && history == Last(appended, MAX_LINES)
    ensures Members(subs + [|channels|], channels + [Channel([], capacity, 0)])
    ensures RecordsOk(records + [Record(|appended|, history, [], [], [])], channels + [Channel([], capacity, 0)], appended)
    ensures AllAccounted(subs + [|channels|], records + [Record(|appended|, history, [], [], [])], appended, inflight)
    ensures SendingsOk(inflight, appended, records + [Record(|appended|, history, [], [], [])])
  {
    var r := Record(|appended|, history, [], [], []);
    assert forall i | 0 <= i < |subs| :: subs[i] in subs;
    assert appended[..|appended|] == appended;
    assert RecordOk(r, Channel([], capacity, 0), appended);
    forall k | 0 <= k < |inflight| ensures SendingOk(inflight[k], appended, records + [r]) {
      assert SendingOk(inflight[k], appended, records);
    }
    assert Accounted(r, |channels|, appended, inflight);
  }

  lemma JoinInOrder(inflight: seq<Sending>, appended: seq<string>, records: seq<Record>, history: seq<string>)
    requires InOrder(inflight, appended, records)
    ensures InOrder(inflight, appended, records + [Record(|appended|, history, [], [], [])])
  {
  }

  // ---- leaving ----

  lemma PendingWithout(inflight: seq<Sending>, k: nat, n: nat, c: nat)
    requires k < |inflight| && inflight[k].targets == []
    ensures Pending(Without(inflight, k), n, c) <==> Pending(inflight, n, c)
  {
    var after := Without(inflight, k);
    if Pending(inflight, n, c) {
      var j :| 0 <= j < |inflight| && inflight[j].item.Log? && inflight[j].item.n == n && c in inflight[j].targets;
      assert after[if j < k then j else j - 1] == inflight[j];
    }
    if Pending(after, n, c) {
      var j :| 0 <= j < |after| && after[j].item.Log? && after[j].item.n == n && c in after[j].targets;
      assert inflight[if j < k then j else j + 1] == after[j];
    }
  }

  lemma RemoveOne(subs: seq<nat>, i: nat)
    requires i < |subs| && DistinctNats(subs)
    ensures DistinctNats(Without(subs, i))
    ensures forall d :: d in Without(subs, i) <==> d in subs && d != subs[i]
  {
    var after := Without(subs, i);
    forall d | d in subs && d != subs[i] ensures d in after {
      var j :| 0 <= j < |subs| && subs[j] == d;
      assert after[if j < i then j else j - 1] == d;
    }
  }

  class Hub {
    var lines: seq<string>
    var subs: seq<nat>                   // registered channels, in order
    var channels: seq<Channel>           // every channel ever made
    var inflight: seq<Sending>
    var broken: bool                     // a writer sent on a closed channel, which panics
    var appended: seq<string>            // every line ever appended; the program keeps only the last ones

    ghost var records: seq<Record>
    ghost var overlapped: bool           // two log lines were once being sent at the same time

    ghost predicate Valid()
      reads this
    {
      && lines == Last(appended, MAX_LINES)
      && Members(subs, channels)
      && RecordsOk(records, channels, appended)
      && AllAccounted(subs, records, appended, inflight)
      && SendingsOk(inflight, appended, records)
      && (overlapped || InOrder(inflight, appended, records))
    }

    constructor ()
      ensures Valid() && lines == [] && appended == [] && channels == [] && subs == [] && inflight == []
      ensures !broken && !overlapped
    {
      lines, subs, channels, inflight, broken := [], [], [], [], false;
      appended, records, overlapped := [], [], false;
    }

    /** The locked half of appending a line: the buffer moves on and the subscribers of this moment become
        the line's targets. */
    method Append(line: string)
      requires Valid()
      modifies `lines, `inflight, `appended, `records, `overlapped
      ensures Valid() && appended == old(appended) + [line]
      ensures lines == Last(appended, MAX_LINES)
      ensures inflight == old(inflight) + [Sending(Log(|old(appended)|, line), subs)]
      ensures overlapped <==> old(overlapped) || SomeLog(old(inflight))
    {
      BufferStep(appended, line);
      GrownRecordsOk(records, channels, appended, line, subs, inflight);
      GrownAllAccounted(subs, records, appended, line, inflight);
      GrownSendings(inflight, appended, line, records, channels, subs);
      if !overlapped && !SomeLog(inflight) {
        GrownInOrder(inflight, appended, line, records, subs);
      }
      if |lines| >= MAX_LINES {
        lines := lines[1..];
      }
      lines := lines + [line];
      overlapped := overlapped || SomeLog(inflight);
      inflight := inflight + [Sending(Log(|appended|, line), subs)];
      records := Grown(records, subs);
      appended := appended + [line];
    }

    /** The locked half of emitting an event: no line is kept. */
    method Emit(text: string)
      requires Valid()
      modifies `inflight
      ensures Valid() && inflight == old(inflight) + [Sending(Event(text), subs)]
    {
      var more := inflight + [Sending(Event(text), subs)];
      forall c | c in subs ensures Accounted(records[c], c, appended, more) {
        forall n: nat ensures Pending(more, n, c) <==> Pending(inflight, n, c) {
          assert forall k | 0 <= k < |inflight| :: more[k] == inflight[k];
        }
      }
      assert SendingOk(more[|inflight|], appended, records);
      inflight := more;
    }

    /** One writer's next non-blocking send. A line is dropped only when the channel is full; only a channel
        whose subscriber has left can be closed. */
    method SendNext(k: nat)
      requires Valid() && k < |inflight| && inflight[k].targets != []
      modifies `inflight, `channels, `broken, `records
      ensures Valid() && inflight == Sent(old(inflight), k)
      ensures var c := old(inflight)[k].targets[0];
        c < |old(channels)| == |old(records)| && (c !in subs ==> broken && channels == old(channels) && records == old(records))
      ensures var c, item := old(inflight)[k].targets[0], old(inflight)[k].item;
        c in subs ==>
          var ch := old(channels)[c];
          var fits := |ch.queue| < ch.capacity;
          && broken == old(broken)
          && channels == (if fits then old(channels)[c := ch.(queue := ch.queue + [item])] else old(channels))
          && records == old(records)[c := Marked(old(records)[c], item, fits)]
    {
      var c := inflight[k].targets[0];
      assert SendingOk(inflight[k], appended, records) && c in inflight[k].targets;
      if channels[c].closes > 0 {
        broken := true;
        SkipClosed(k);
        SentSendings(inflight, k, appended, records, records);
        inflight := Sent(inflight, k);
      } else {
        SendOpen(k);
      }
    }

    /** The send to a channel that is still open. */
    method SendOpen(k: nat)
      requires Valid() && k < |inflight| && inflight[k].targets != [] && inflight[k].targets[0] in subs
      modifies `inflight, `channels, `records
      ensures Valid() && inflight == Sent(old(inflight), k)
      ensures var c, item := old(inflight)[k].targets[0], old(inflight)[k].item;
        var ch := old(channels)[c];
        var fits := |ch.queue| < ch.capacity;
        && channels == (if fits then old(channels)[c := ch.(queue := ch.queue + [item])] else old(channels))
        && c < |old(records)| && records == old(records)[c := Marked(old(records)[c], item, fits)]
    {
      var c, item := inflight[k].targets[0], inflight[k].item;
      var fits := |channels[c].queue| < channels[c].capacity;
      TargetWaits(k);
      SendLemma(k, fits);
      if fits {
        channels := channels[c := channels[c].(queue := channels[c].queue + [item])];
      }
      records := records[c := Marked(records[c], item, fits)];
      inflight := Sent(inflight, k);
    }

    lemma TargetWaits(k: nat)
      requires Valid() && k < |inflight| && inflight[k].targets != [] && inflight[k].targets[0] in subs
      ensures var c, item := inflight[k].targets[0], inflight[k].item;
        c < |records| && (item.Log? ==>
          && records[c].joined <= item.n < records[c].joined + |records[c].fate| == |appended|
          && records[c].fate[item.n - records[c].joined].Waiting? && item.text == appended[item.n])
    {
      var c, item := inflight[k].targets[0], inflight[k].item;
      assert SendingOk(inflight[k], appended, records) && c in inflight[k].targets;
      assert Accounted(records[c], c, appended, inflight);
      assert item.Log? ==> Pending(inflight, item.n, c);
    }

    lemma SendLemma(k: nat, fits: bool)
      requires Valid() && k < |inflight| && inflight[k].targets != [] && inflight[k].targets[0] in subs
      requires fits ==> |channels[inflight[k].targets[0]].queue| < channels[inflight[k].targets[0]].capacity
      requires var c, item := inflight[k].targets[0], inflight[k].item;
        c < |records| && (item.Log? ==>
          && records[c].joined <= item.n < records[c].joined + |records[c].fate| == |appended|
          && records[c].fate[item.n - records[c].joined].Waiting? && item.text == appended[item.n])
      ensures var c, item := inflight[k].targets[0], inflight[k].item;
        var after := records[c := Marked(records[c], item, fits)];
        var chs := if fits then channels[c := channels[c].(queue := channels[c].queue + [item])] else channels;
        && Members(subs, chs) && RecordsOk(after, chs, appended) && AllAccounted(subs, after, appended, Sent(inflight, k))
        && SendingsOk(Sent(inflight, k), appended, after) && (overlapped || InOrder(Sent(inflight, k), appended, after))
    {
      var c, item := inflight[k].targets[0], inflight[k].item;
      var after := records[c := Marked(records[c], item, fits)];
      MarkedRecordOk(records[c], channels[c], appended, item, fits);
      forall d | d in subs ensures Accounted(after[d], d, appended, Sent(inflight, k)) {
        if d == c {
          MarkedAccounted(records[c], c, appended, inflight, records, k, fits);
        } else {
          OthersAccounted(records[d], d, appended, inflight, records, k);
        }
      }
      SentSendings(inflight, k, appended, records, after);
      if !overlapped {
        SentInOrder(inflight, k, appended, records, c, fits, channels);
      }
    }

    lemma SkipClosed(k: nat)
      requires Valid() && k < |inflight| && inflight[k].targets != [] && inflight[k].targets[0] !in subs
      ensures AllAccounted(subs, records, appended, Sent(inflight, k))
      ensures overlapped || InOrder(Sent(inflight, k), appended, records)
    {
      forall d | d in subs ensures Accounted(records[d], d, appended, Sent(inflight, k)) {
        OthersAccounted(records[d], d, appended, inflight, records, k);
      }
    }

    /** A writer whose sends are done returns. */
    method Return(k: nat)
      requires Valid() && k < |inflight| && inflight[k].targets == []
      modifies `inflight
      ensures Valid() && inflight == Without(old(inflight), k)
    {
      forall c | c in subs ensures Accounted(records[c], c, appended, Without(inflight, k)) {
        forall n: nat ensures Pending(Without(inflight, k), n, c) <==> Pending(inflight, n, c) {
          PendingWithout(inflight, k, n, c);
        }
      }
      forall j | 0 <= j < |Without(inflight, k)| ensures SendingOk(Without(inflight, k)[j], appended, records) {
        assert SendingOk(inflight[if j < k then j else j + 1], appended, records);
      }
      inflight := Without(inflight, k);
    }

    /** Registers a channel and hands out the lines so far. */
    method Subscribe(buf: int) returns (history: seq<string>, c: nat)
      requires Valid()
      modifies `subs, `channels, `records
      ensures Valid() && c == |old(channels)| && subs == old(subs) + [c]
      ensures channels == old(channels) + [Channel([], if buf <= 0 then DEFAULT_CAPACITY else buf, 0)]
      ensures history == lines == Last(appended, MAX_LINES)
      ensures records == old(records) + [Record(|appended|, history, [], [], [])]
    {
      history, c := lines, |channels|;
      var capacity := if buf <= 0 then DEFAULT_CAPACITY else buf;
      JoinKeeps(subs, channels, records, appended, inflight, history, capacity);
      if !overlapped {
        JoinInOrder(inflight, appended, records, history);
      }
      channels := channels + [Channel([], capacity, 0)];
      records := records + [Record(|appended|, history, [], [], [])];
      subs := subs + [c];
    }

    /** A subscriber's cancel function: looks its channel up, forgets it and closes it; called again, or after
        the end of the run, it does nothing. */
    method Unsubscribe(c: nat)
      requires Valid() && c < |channels|
      modifies `subs, `channels
      ensures Valid() && c !in subs && channels[c].closes == 1
      ensures |channels| == |old(channels)| && forall d | d in old(subs) && d != c :: d in subs
      ensures forall d: nat | d < |channels| :: channels[d].queue == old(channels)[d].queue && channels[d].closes >= old(channels)[d].closes
      ensures c !in old(subs) ==> subs == old(subs) && channels == old(channels)
    {
      for i := 0 to |subs|
        invariant forall j | 0 <= j < i :: subs[j] != c
        invariant subs == old(subs) && channels == old(channels)
      {
        if subs[i] == c {
          RemoveOne(subs, i);
          subs := Without(subs, i);
          channels := channels[c := channels[c].(closes := channels[c].closes + 1)];
          assert channels[c].closes == 1;
          return;
        }
      }
    }

    /** A subscriber leaves just before a writer that counted it among its targets sends to it. */
    method LeaveBeforeSend(k: nat)
      requires Valid() && k < |inflight| && inflight[k].targets != []
      modifies `subs, `channels, `inflight, `broken, `records
      ensures Valid() && broken
    {
      assert SendingOk(inflight[k], appended, records) && inflight[k].targets[0] in inflight[k].targets;
      Unsubscribe(inflight[k].targets[0]);
      SendNext(k);
    }

    /** The end of the run closes every channel still registered. */
    method CloseAll()
      requires Valid()
      modifies `subs, `channels
      ensures Valid() && subs == [] && |channels| == |old(channels)|
      ensures forall c: nat | c < |channels| :: channels[c].closes == 1 && channels[c].queue == old(channels)[c].queue
    {
      for i := 0 to |subs|
        invariant subs == old(subs) && |channels| == |old(channels)| && DistinctNats(subs) && forall c | c in subs :: c < |channels|
        invariant forall c: nat | c < |channels| :: channels[c] == old(channels)[c].(closes := if c in subs[i..] then 0 else 1)
      {
        assert subs[i..] == [subs[i]] + subs[i + 1..];
        var c := subs[i];
        assert c in subs && c !in subs[i + 1..];
        channels := channels[c := channels[c].(closes := channels[c].closes + 1)];
      }
      subs := [];
    }

    /** A subscriber reads the next item. */
    method Receive(c: nat) returns (item: Item)
      requires Valid() && c < |channels| && channels[c].queue != []
      modifies `channels, `records
      ensures Valid() && item == old(channels)[c].queue[0]
      ensures channels == old(channels)[c := old(channels)[c].(queue := old(channels)[c].queue[1..])]
      ensures |records| == |old(records)| && records == old(records)[c := old(records)[c].(received := old(records)[c].received + [item])]
    {
      var r, ch := records[c], channels[c];
      item := ch.queue[0];
      assert RecordOk(r, ch, appended);
      assert r.received + [item] + ch.queue[1..] == r.received + ch.queue;
      assert RecordOk(r.(received := r.received + [item]), ch.(queue := ch.queue[1..]), appended);
      channels := channels[c := ch.(queue := ch.queue[1..])];
      records := records[c := r.(received := r.received + [item])];
    }

    // ---- what a subscriber gets ----

    /** Once no writer is sending, every line is in exactly one place for a subscriber that stayed: old lines
        in the history as far as the buffer reached, later lines either put on its channel, once, or dropped;
        no old line ever reaches the channel. With one writer at a time the channel keeps their order. */
    lemma NothingMissed(c: nat, n: nat)
      requires Valid() && c in subs && n < |appended| && inflight == []
      ensures c < |records|
      ensures var r := records[c];
        && (n < r.joined ==> n !in Numbers(r.sent) && (n + MAX_LINES >= r.joined ==> r.history[n + |r.history| - r.joined] == appended[n]))
        && (n >= r.joined ==> n - r.joined < |r.fate| && (n in Numbers(r.sent) <==> !r.fate[n - r.joined].Dropped?))
        && DistinctNats(Numbers(r.sent))
        && (!overlapped ==> Increasing(Numbers(r.sent)))
    {
      var r := records[c];
      assert RecordOk(r, channels[c], appended) && Accounted(r, c, appended, inflight);
      if n >= r.joined {
        assert !Pending(inflight, n, c);
      }
    }
  }

  /** The shortest run that panics: subscribe, append a line, leave, send. A select with a default branch does
      not help, since a send on a closed channel is ready. */
  method SendAfterLeaving(buf: int, line: string) returns (hub: Hub)
    ensures fresh(hub) && hub.Valid() && hub.broken && hub.appended == [line]
  {
    hub := new Hub();
    var history, c := hub.Subscribe(buf);
    hub.Append(line);
    hub.LeaveBeforeSend(0);
  }
}
