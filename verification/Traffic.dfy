/** Monthly traffic totals over kernel counters that start again at every boot. */
module Traffic {
  import opened Wrappers
  import opened Json
  import opened Models

  /** A moment of UTC: microseconds since a fixed origin, its ISO text, the text of its month, and calendar fields. */
  datatype Moment = Moment(
    instant: int, iso: string, month: string, daysInMonth: int, day: int, hour: int, minute: int, second: int)
  {
    predicate Valid() {
      28 <= daysInMonth <= 31 && 1 <= day <= daysInMonth && 0 <= hour < 24 && 0 <= minute < 60 && 0 <= second < 60
    }
  }

  /** Received and sent bytes, as counters, totals or differences. */
  datatype Bytes = Bytes(rx: int, tx: int)

  const ZERO := Bytes(0, 0)

  function Plus(a: Bytes, b: Bytes): Bytes {
    Bytes(a.rx + b.rx, a.tx + b.tx)
  }

  function Minus(a: Bytes, b: Bytes): Bytes {
    Bytes(a.rx - b.rx, a.tx - b.tx)
  }

  predicate AtMost(a: Bytes, b: Bytes) {
    a.rx <= b.rx && a.tx <= b.tx
  }

  function NotNegative(n: int): int {
    if n < 0 then 0 else n
  }

  /** How much two counter readings of one boot add. */
  function Gain(before: Bytes, after: Bytes): Bytes {
    Bytes(NotNegative(after.rx - before.rx), NotNegative(after.tx - before.tx))
  }

  datatype Sample = Sample(now: Moment, boot: string, counters: Bytes)

  /** What the state file holds. */
  datatype Ledger = Ledger(
    month: string, boot: string, last: Bytes, total: Bytes, baselineTx: int, trackingStarted: string, updatedAt: string)

  /** The bookkeeping of one sample. */
  function Next(before: Option<Ledger>, s: Sample): Ledger {
    if before.None? || before.value.month != s.now.month then
      var initial := if before.None? then s.counters else ZERO;
      Ledger(s.now.month, s.boot, s.counters, initial, initial.tx, s.now.iso, s.now.iso)
    else
      var l := before.value;
      if l.boot != s.boot then
        l.(boot := s.boot, last := s.counters, total := Plus(l.total, s.counters), updatedAt := s.now.iso)
      else
        l.(last := s.counters, total := Plus(l.total, Gain(l.last, s.counters)), updatedAt := s.now.iso)
  }

  function RunFrom(l: Ledger, ss: seq<Sample>): Ledger
    decreases |ss|
  {
    if ss == [] then l else RunFrom(Next(Some(l), ss[0]), ss[1..])
  }

  function Run(before: Option<Ledger>, ss: seq<Sample>): Option<Ledger> {
    if ss == [] then before else Some(RunFrom(Next(before, ss[0]), ss[1..]))
  }

  // ---------- conservation ----------

  /** The last counter reading of every stretch of samples from one boot, added up. */
  function LastOfEachBoot(ss: seq<Sample>): Bytes
    requires ss != []
  {
    if |ss| == 1 then ss[0].counters
    else Plus(if ss[1].boot != ss[0].boot then ss[0].counters else ZERO, LastOfEachBoot(ss[1..]))
  }

  /** What the counters moved between the last sample of a month and the first one of the next. */
  function Gaps(ss: seq<Sample>): Bytes {
    if |ss| <= 1 then ZERO
    else
      Plus(if ss[1].now.month == ss[0].now.month then ZERO
           else if ss[1].boot == ss[0].boot then Minus(ss[1].counters, ss[0].counters)
           else ss[1].counters,
           Gaps(ss[1..]))
  }

  function DropBetween(a: Sample, b: Sample): (d: Bytes)
    ensures AtMost(ZERO, d)
  {
    if a.now.month == b.now.month && a.boot == b.boot then Gain(b.counters, a.counters) else ZERO
  }

  /** How far the counters went back between samples of one boot in one month. */
  function Drops(ss: seq<Sample>): Bytes
    ensures AtMost(ZERO, Drops(ss))
  {
    if |ss| <= 1 then ZERO else Plus(DropBetween(ss[0], ss[1]), Drops(ss[1..]))
  }

  predicate Rises(a: Sample, b: Sample) {
    a.now.month == b.now.month && a.boot == b.boot ==> AtMost(a.counters, b.counters)
  }

  predicate NeverDrops(ss: seq<Sample>) {
    forall i | 0 <= i < |ss| - 1 :: Rises(ss[i], ss[i + 1])
  }

  lemma NeverDropsSplits(ss: seq<Sample>)
    requires |ss| > 1
    ensures NeverDrops(ss) <==> Rises(ss[0], ss[1]) && NeverDrops(ss[1..])
  {
    var rest := ss[1..];
    if NeverDrops(ss) {
      forall i | 0 <= i < |rest| - 1 ensures Rises(rest[i], rest[i + 1]) {
        assert Rises(ss[i + 1], ss[i + 2]);
      }
    }
    if Rises(ss[0], ss[1]) && NeverDrops(rest) {
      forall i | 0 <= i < |ss| - 1 ensures Rises(ss[i], ss[i + 1]) {
        assert i > 0 ==> Rises(rest[i - 1], rest[i]);
      }
    }
  }

  lemma RisesWithoutDrop(a: Sample, b: Sample)
    ensures Rises(a, b) <==> DropBetween(a, b) == ZERO
  {
  }

  lemma SumOfNothing(a: Bytes, b: Bytes)
    requires AtMost(ZERO, a) && AtMost(ZERO, b)
    ensures Plus(a, b) == ZERO <==> a == ZERO && b == ZERO
  {
  }

  lemma {:induction false} NoDropsExactly(ss: seq<Sample>)
    ensures NeverDrops(ss) <==> Drops(ss) == ZERO
  {
    if |ss| > 1 {
      NoDropsExactly(ss[1..]);
      NeverDropsSplits(ss);
      RisesWithoutDrop(ss[0], ss[1]);
      SumOfNothing(DropBetween(ss[0], ss[1]), Drops(ss[1..]));
    }
  }

  /** The totals of all months that were finished on the way, and of the current one. */
  function AllTotals(l: Ledger, ss: seq<Sample>): Bytes
    decreases |ss|
  {
    if ss == [] then l.total
    else Plus(if ss[0].now.month != l.month then l.total else ZERO, AllTotals(Next(Some(l), ss[0]), ss[1..]))
  }

  predicate Follows(l: Ledger, s: Sample) {
    l.month == s.now.month && l.boot == s.boot && l.last == s.counters
  }

  lemma FirstSampleUnfolds(l: Ledger, ss: seq<Sample>)
    requires ss != []
    ensures |ss| == 1 ==>
              && AllTotals(l, ss[1..]) == l.total && Gaps(ss) == ZERO && Drops(ss) == ZERO
              && LastOfEachBoot(ss) == ss[0].counters
    ensures |ss| > 1 ==>
              var a, b, rest := ss[0], ss[1], ss[1..];
              && AllTotals(l, rest) ==
                 Plus(if b.now.month != l.month then l.total else ZERO, AllTotals(Next(Some(l), b), rest[1..]))
              && Gaps(ss) ==
                 Plus(if b.now.month == a.now.month then ZERO
                      else if b.boot == a.boot then Minus(b.counters, a.counters) else b.counters, Gaps(rest))
              && Drops(ss) == Plus(DropBetween(a, b), Drops(rest))
              && LastOfEachBoot(ss) == Plus(if b.boot != a.boot then a.counters else ZERO, LastOfEachBoot(rest))
  {
    hide Next, DropBetween;
  }

  /** One sample: what is carried over, what fell into a gap and what the counters moved make up the change. */
  lemma StepBalances(l: Ledger, a: Sample, b: Sample)
    requires Follows(l, a)
    ensures var next := Next(Some(l), b);
            var carried := if b.now.month != l.month then l.total else ZERO;
            var gap := if b.now.month == a.now.month then ZERO
                       else if b.boot == a.boot then Minus(b.counters, a.counters) else b.counters;
            var finished := if b.boot != a.boot then a.counters else ZERO;
            && Follows(next, b)
            && Plus(Plus(carried, gap), Plus(a.counters, next.total)) ==
               Plus(Plus(l.total, finished), Plus(DropBetween(a, b), b.counters))
  {
  }

  /** The balance of one sample and that of the samples after it make the balance of all. */
  lemma BalancesAdd(
      start: Bytes, first: Bytes, carried: Bytes, gap: Bytes, finished: Bytes, drop: Bytes, next: Bytes, second: Bytes,
      totals: Bytes, gaps: Bytes, drops: Bytes, lasts: Bytes)
    requires Plus(Plus(carried, gap), Plus(first, next)) == Plus(Plus(start, finished), Plus(drop, second))
    requires Plus(Plus(totals, gaps), second) == Plus(Plus(next, lasts), drops)
    ensures Plus(Plus(Plus(carried, totals), Plus(gap, gaps)), first) ==
            Plus(Plus(start, Plus(finished, lasts)), Plus(drop, drops))
  {
  }

  /** Nothing is lost and nothing is counted twice: over any months and any boots, the monthly totals and the
      gaps between months account exactly for the last counter of every boot. */
  lemma {:induction false} Conservation(l: Ledger, ss: seq<Sample>)
    requires ss != [] && Follows(l, ss[0])
    ensures Plus(Plus(AllTotals(l, ss[1..]), Gaps(ss)), ss[0].counters) ==
            Plus(Plus(l.total, LastOfEachBoot(ss)), Drops(ss))
    decreases |ss|
  {
    FirstSampleUnfolds(l, ss);
    if |ss| > 1 {
      hide Next, DropBetween, AllTotals, Gaps, Drops, LastOfEachBoot, Plus, Minus;
      var a, b, rest := ss[0], ss[1], ss[1..];
      var next := Next(Some(l), b);
      StepBalances(l, a, b);
      assert rest[0] == b;
      Conservation(next, rest);
      var carried := if b.now.month != l.month then l.total else ZERO;
      var gap := if b.now.month == a.now.month then ZERO
                 else if b.boot == a.boot then Minus(b.counters, a.counters) else b.counters;
      var finished := if b.boot != a.boot then a.counters else ZERO;
      BalancesAdd(l.total, a.counters, carried, gap, finished, DropBetween(a, b), next.total, b.counters,
                  AllTotals(next, rest[1..]), Gaps(rest), Drops(rest), LastOfEachBoot(rest));
    }
  }

  predicate OneMonth(ss: seq<Sample>) {
    forall i | 0 <= i < |ss| :: ss[i].now.month == ss[0].now.month
  }

  predicate OneBoot(ss: seq<Sample>) {
    forall i | 0 <= i < |ss| :: ss[i].boot == ss[0].boot
  }

  lemma {:induction false} WithinOneMonth(l: Ledger, ss: seq<Sample>)
    requires ss != [] && OneMonth(ss) && l.month == ss[0].now.month
    ensures AllTotals(l, ss[1..]) == RunFrom(l, ss[1..]).total && Gaps(ss) == ZERO
    decreases |ss|
  {
    if |ss| > 1 {
      assert ss[1..][0] == ss[1];
      assert OneMonth(ss[1..]);
      WithinOneMonth(Next(Some(l), ss[1]), ss[1..]);
      assert ss[1..][1..] == ss[2..];
    }
  }

  lemma {:induction false} LastOfOneBoot(ss: seq<Sample>)
    requires ss != [] && OneBoot(ss)
    ensures LastOfEachBoot(ss) == ss[|ss| - 1].counters
  {
    if |ss| > 1 {
      assert ss[1..][0] == ss[1];
      LastOfOneBoot(ss[1..]);
    }
  }

  /** The month's total is exactly its starting value, plus last minus first counter of the first boot, plus the
      last counter of each later boot - if and only if no counter went back within a boot. */
  lemma MonthTotalIsExact(before: Option<Ledger>, ss: seq<Sample>)
    requires ss != [] && OneMonth(ss) && (before.None? || before.value.month != ss[0].now.month)
    ensures var start := if before.None? then ss[0].counters else Bytes(0, 0);
            var end := Run(before, ss).value.total;
            end == Plus(Minus(start, ss[0].counters), LastOfEachBoot(ss)) <==> NeverDrops(ss)
  {
    var l := Next(before, ss[0]);
    Conservation(l, ss);
    WithinOneMonth(l, ss);
    NoDropsExactly(ss);
  }

  /** All other members of a month's ledger: month and start of tracking are those of its first sample, counters, boot
      and time those of its last one, and the baseline is the total that the month began with. */
  lemma MonthLedgerIsExact(before: Option<Ledger>, ss: seq<Sample>)
    requires ss != [] && OneMonth(ss) && (before.None? || before.value.month != ss[0].now.month)
    ensures var l, last := Run(before, ss).value, ss[|ss| - 1];
            && l.month == ss[0].now.month && l.trackingStarted == ss[0].now.iso
            && l.baselineTx == (if before.None? then ss[0].counters.tx else 0)
            && l.boot == last.boot && l.last == last.counters && l.updatedAt == last.now.iso
  {
    LedgerKeepsStart(Next(before, ss[0]), ss);
  }

  lemma {:induction false} LedgerKeepsStart(l: Ledger, ss: seq<Sample>)
    requires ss != [] && OneMonth(ss) && Follows(l, ss[0]) && l.updatedAt == ss[0].now.iso
    ensures var end, last := RunFrom(l, ss[1..]), ss[|ss| - 1];
            && end.month == l.month && end.trackingStarted == l.trackingStarted && end.baselineTx == l.baselineTx
            && end.boot == last.boot && end.last == last.counters && end.updatedAt == last.now.iso
    decreases |ss|
  {
    if |ss| > 1 {
      var rest := ss[1..];
      assert forall i | 0 <= i < |rest| :: rest[i] == ss[i + 1];
      LedgerKeepsStart(Next(Some(l), ss[1]), rest);
      assert rest[1..] == ss[2..];
    }
  }

  /** The condition is needed: when a new process sees the counter of sent bytes go back within one boot, the month's
      total stays at the higher reading, where the formula gives the lower one. */
  lemma CounterThatGoesBack(now: Moment, boot: string, low: nat, high: nat)
    requires low < high
    ensures var ss := [Sample(now, boot, Bytes(0, high)), Sample(now, boot, Bytes(0, low))];
            && OneMonth(ss) && !NeverDrops(ss) && Run(None, ss).value.total == Bytes(0, high)
            && Plus(Minus(Next(None, ss[0]).total, ss[0].counters), LastOfEachBoot(ss)) == Bytes(0, low)
  {
    var a, b := Sample(now, boot, Bytes(0, high)), Sample(now, boot, Bytes(0, low));
    assert !Rises([a, b][0], [a, b][1]);
    RunOfTwo(a, b);
    LastOfTwo(a, b);
  }

  lemma RunOfTwo(a: Sample, b: Sample)
    ensures Run(None, [a, b]) == Some(Next(Some(Next(None, a)), b))
  {
    hide Next;
    assert [a, b][1..] == [b] && [b][1..] == [];
    assert RunFrom(Next(None, a), [b]) == RunFrom(Next(Some(Next(None, a)), b), []);
  }

  lemma LastOfTwo(a: Sample, b: Sample)
    requires a.boot == b.boot
    ensures LastOfEachBoot([a, b]) == b.counters
  {
    assert [a, b][1..] == [b];
    assert LastOfEachBoot([b]) == b.counters;
  }

  /** Tracking that began with no saved state, in one boot: the monthly totals and the gaps add up to the kernel
      counter - if and only if it never went back within a month. */
  lemma OneBootAccountsForTheCounter(ss: seq<Sample>)
    requires ss != [] && OneBoot(ss)
    ensures Plus(AllTotals(Next(None, ss[0]), ss[1..]), Gaps(ss)) == ss[|ss| - 1].counters <==> NeverDrops(ss)
  {
    Conservation(Next(None, ss[0]), ss);
    LastOfOneBoot(ss);
    NoDropsExactly(ss);
  }

  // ---------- samples that do not matter ----------

  /** Counters do not go back within a boot, here seen from the sample before. */
  predicate Ordered(l: Ledger, ss: seq<Sample>) {
    && (ss != [] && l.boot == ss[0].boot ==> AtMost(l.last, ss[0].counters))
    && forall i | 0 <= i < |ss| - 1 && ss[i].boot == ss[i + 1].boot :: AtMost(ss[i].counters, ss[i + 1].counters)
  }

  /** A sample that is neither the first of its month nor the last of its boot within the month. */
  predicate IsInner(l: Ledger, ss: seq<Sample>, i: nat)
    requires i < |ss|
  {
    && ss[i].now.month == (if i == 0 then l.month else ss[i - 1].now.month)
    && i + 1 < |ss| && ss[i + 1].boot == ss[i].boot && ss[i + 1].now.month == ss[i].now.month
  }

  function Filter(ss: seq<Sample>, keep: seq<bool>): seq<Sample>
    requires |keep| == |ss|
  {
    if ss == [] then [] else (if keep[0] then [ss[0]] else []) + Filter(ss[1..], keep[1..])
  }

  lemma InnerSampleDoesNotMatter(l: Ledger, s: Sample, t: Sample)
    requires l.month == s.now.month == t.now.month && s.boot == t.boot
    requires AtMost(s.counters, t.counters) && (l.boot == s.boot ==> AtMost(l.last, s.counters))
    ensures Next(Some(Next(Some(l), s)), t) == Next(Some(l), t)
  {
  }

  /** Any set of inner samples can be left out: the ledger at the end is the same in every field. */
  lemma {:induction false} InnerSamplesDoNotMatter(l: Ledger, ss: seq<Sample>, keep: seq<bool>)
    requires |keep| == |ss| && Ordered(l, ss)
    requires forall i | 0 <= i < |ss| && !keep[i] :: IsInner(l, ss, i)
    ensures RunFrom(l, Filter(ss, keep)) == RunFrom(l, ss)
    decreases |ss|
  {
    if ss != [] {
      var rest, restKeep := ss[1..], keep[1..];
      assert forall i | 0 <= i < |rest| :: rest[i] == ss[i + 1] && restKeep[i] == keep[i + 1];
      forall i | 0 <= i < |rest| && !restKeep[i]
        ensures IsInner(Next(Some(l), ss[0]), rest, i) && (!keep[0] ==> IsInner(l, rest, i))
      {
        assert IsInner(l, ss, i + 1);
        assert !keep[0] ==> IsInner(l, ss, 0);
      }
      if keep[0] {
        InnerSamplesDoNotMatter(Next(Some(l), ss[0]), rest, restKeep);
        assert Filter(ss, keep)[1..] == Filter(rest, restKeep);
      } else {
        assert IsInner(l, ss, 0);
        InnerSampleDoesNotMatter(l, ss[0], ss[1]);
        assert Ordered(l, rest);
        InnerSamplesDoNotMatter(l, rest, restKeep);
        assert Filter(ss, keep) == Filter(rest, restKeep);
        assert RunFrom(l, rest) == RunFrom(Next(Some(l), ss[1]), ss[2..]);
        assert RunFrom(Next(Some(l), ss[0]), rest) == RunFrom(Next(Some(Next(Some(l), ss[0])), ss[1]), ss[2..]);
      }
    }
  }

  // ---------- the state file ----------

  function LedgerFields(l: Ledger): map<string, Json> {
    map["schema_version" := Num(1), "month" := Str(l.month), "boot_id" := Str(l.boot),
        "last_rx_bytes" := Num(l.last.rx), "last_tx_bytes" := Num(l.last.tx),
        "rx_bytes" := Num(l.total.rx), "tx_bytes" := Num(l.total.tx),
        "projection_baseline_tx_bytes" := Num(l.baselineTx),
        "tracking_started_at" := Str(l.trackingStarted), "updated_at" := Str(l.updatedAt)]
  }

  function LedgerText(l: Ledger): string {
    Canonical(Obj(LedgerFields(l)))
  }

  /** What a process starts from; nothing when the file is missing, unreadable or of another schema. */
  function LoadFields(file: Option<string>): Option<map<string, Json>> {
    if file.None? then None
    else
      match Loads(file.value)
      case Some(Obj(f)) => if "schema_version" in f && EqualsNumber(f["schema_version"], 1) then Some(f) else None
      case _ => None
  }

  const TEXT_KEYS := {"month", "boot_id", "tracking_started_at", "updated_at"}
  const NUMBER_KEYS := {
    "last_rx_bytes", "last_tx_bytes", "rx_bytes", "tx_bytes", "projection_baseline_tx_bytes"}

  /** Every member of a ledger is there, with its type. */
  predicate IsComplete(f: map<string, Json>) {
    (forall k | k in TEXT_KEYS :: k in f && f[k].Str?) && forall k | k in NUMBER_KEYS :: k in f && f[k].Num?
  }

  function LedgerOf(f: map<string, Json>): Ledger
    requires IsComplete(f)
  {
    Ledger(f["month"].s, f["boot_id"].s, Bytes(f["last_rx_bytes"].n, f["last_tx_bytes"].n),
           Bytes(f["rx_bytes"].n, f["tx_bytes"].n), f["projection_baseline_tx_bytes"].n,
           f["tracking_started_at"].s, f["updated_at"].s)
  }

  /** Files that the accountant wrote, and files that it cannot use at all. */
  predicate IsWhole(file: Option<string>) {
    LoadFields(file).Some? ==> IsComplete(LoadFields(file).value)
  }

  function LoadLedger(file: Option<string>): Option<Ledger> {
    match LoadFields(file)
    case None => None
    case Some(f) => if IsComplete(f) then Some(LedgerOf(f)) else None
  }

  lemma LedgerFieldsAreComplete(l: Ledger)
    ensures IsComplete(LedgerFields(l)) && LedgerOf(LedgerFields(l)) == l
  {
  }

  /** The names under which the file holds the members. */
  lemma LedgerMembers(l: Ledger)
    ensures var f := LedgerFields(l);
            && f["rx_bytes"] == Num(l.total.rx) && f["tx_bytes"] == Num(l.total.tx)
            && f["last_rx_bytes"] == Num(l.last.rx) && f["last_tx_bytes"] == Num(l.last.tx)
            && f["month"] == Str(l.month) && f["boot_id"] == Str(l.boot)
  {
  }

  /** The ledger that was saved is the ledger that the next process starts from. */
  lemma LedgerRoundTrip(l: Ledger)
    ensures IsWhole(Some(LedgerText(l))) && LoadLedger(Some(LedgerText(l))) == Some(l)
  {
    hide Canonical, Loads, LedgerOf, IsComplete;
    RoundTrip(Obj(LedgerFields(l)));
    LedgerFieldsAreComplete(l);
  }

  // ---------- restarts, failed saves and crashes ----------

  /** What happened around one sample: its state was saved; the save failed and the process went on; or the
      process died before the save. Any process can also be restarted between samples. */
  datatype Event = Saved(s: Sample) | SaveFailed(s: Sample) | DiedBeforeSave(s: Sample) | Restarted

  /** The text of the state file, and the ledger in memory. */
  datatype Machine = Machine(file: Option<string>, mem: Option<Ledger>)

  function StepMachine(m: Machine, e: Event): Machine {
    match e
    case Saved(s) => Machine(Some(LedgerText(Next(m.mem, s))), Some(Next(m.mem, s)))
    case SaveFailed(s) => m.(mem := Some(Next(m.mem, s)))
    case DiedBeforeSave(_) => m.(mem := LoadLedger(m.file))
    case Restarted => m.(mem := LoadLedger(m.file))
  }

  function Exec(m: Machine, events: seq<Event>): Machine {
    if events == [] then m else StepMachine(Exec(m, events[..|events| - 1]), events[|events| - 1])
  }

  /** All samples that were taken, lost or not. */
  function Samples(events: seq<Event>): seq<Sample> {
    if events == [] then []
    else
      Samples(events[..|events| - 1]) +
      match events[|events| - 1]
      case Restarted => []
      case Saved(s) => [s]
      case SaveFailed(s) => [s]
      case DiedBeforeSave(s) => [s]
  }

  /** Which of them are accounted for in the file, and which in memory. */
  function Survival(events: seq<Event>): (r: (seq<bool>, seq<bool>))
    ensures |r.0| == |r.1| == |Samples(events)|
  {
    if events == [] then ([], [])
    else
      var (file, mem) := Survival(events[..|events| - 1]);
      match events[|events| - 1]
      case Saved(_) => (mem + [true], mem + [true])
      case SaveFailed(_) => (file + [false], mem + [true])
      case DiedBeforeSave(_) => (file + [false], file + [false])
      case Restarted => (file, file)
  }

  lemma {:induction false} FilterSnoc(ss: seq<Sample>, keep: seq<bool>, s: Sample, k: bool)
    requires |keep| == |ss|
    ensures Filter(ss + [s], keep + [k]) == if k then Filter(ss, keep) + [s] else Filter(ss, keep)
  {
    if ss == [] {
      assert [s][1..] == [] && [k][1..] == [];
      assert ss + [s] == [s] && keep + [k] == [k];
    } else {
      assert (ss + [s])[1..] == ss[1..] + [s] && (keep + [k])[1..] == keep[1..] + [k];
      FilterSnoc(ss[1..], keep[1..], s, k);
    }
  }

  lemma RunSnoc(before: Option<Ledger>, ss: seq<Sample>, s: Sample)
    ensures Run(before, ss + [s]) == Some(Next(Run(before, ss), s))
  {
    if ss == [] {
      assert ([s])[1..] == [];
      assert ss + [s] == [s];
    } else {
      assert (ss + [s])[1..] == ss[1..] + [s];
      RunFromSnoc(Next(before, ss[0]), ss[1..], s);
    }
  }

  lemma {:induction false} RunFromSnoc(l: Ledger, ss: seq<Sample>, s: Sample)
    ensures RunFrom(l, ss + [s]) == Next(Some(RunFrom(l, ss)), s)
    decreases |ss|
  {
    if ss == [] {
      assert ss + [s] == [s];
      assert RunFrom(l, [s]) == RunFrom(Next(Some(l), s), [s][1..]);
    } else {
      assert (ss + [s])[1..] == ss[1..] + [s];
      RunFromSnoc(Next(Some(l), ss[0]), ss[1..], s);
    }
  }

  /** Restarts change nothing: file and memory are always those of a process that ran without interruption over
      the samples that survived. */
  lemma {:induction false} OnlySurvivingSamplesCount(file: Option<string>, events: seq<Event>)
    requires IsWhole(file)
    ensures var m, before := Exec(Machine(file, LoadLedger(file)), events), LoadLedger(file);
            && IsWhole(m.file)
            && LoadLedger(m.file) == Run(before, Filter(Samples(events), Survival(events).0))
            && m.mem == Run(before, Filter(Samples(events), Survival(events).1))
  {
    hide LedgerText, LoadLedger, IsWhole, Next;
    if events != [] {
      var before := LoadLedger(file);
      var front := events[..|events| - 1];
      OnlySurvivingSamplesCount(file, front);
      var ss := Samples(front);
      var (inFile, inMem) := Survival(front);
      match events[|events| - 1]
      case Saved(s) =>
        FilterSnoc(ss, inMem, s, true);
        RunSnoc(before, Filter(ss, inMem), s);
        LedgerRoundTrip(Next(Exec(Machine(file, before), front).mem, s));
      case SaveFailed(s) =>
        FilterSnoc(ss, inMem, s, true);
        FilterSnoc(ss, inFile, s, false);
        RunSnoc(before, Filter(ss, inMem), s);
      case DiedBeforeSave(s) => FilterSnoc(ss, inFile, s, false);
      case Restarted => assert ss + [] == ss;
    }
  }

  /** The two notions above for a process that may have no saved ledger, so that its first sample begins a month. */
  predicate OrderedAfter(before: Option<Ledger>, ss: seq<Sample>) {
    if before.Some? then Ordered(before.value, ss) else ss != [] ==> Ordered(Next(None, ss[0]), ss[1..])
  }

  predicate IsInnerAfter(before: Option<Ledger>, ss: seq<Sample>, i: nat)
    requires i < |ss|
  {
    if before.Some? then IsInner(before.value, ss, i) else i > 0 && IsInner(Next(None, ss[0]), ss[1..], i - 1)
  }

  /** So crashes, failed saves and restarts that lose only inner samples lose no traffic: the file is that of a
      process that saved every sample. */
  lemma LostInnerSamplesDoNotMatter(file: Option<string>, events: seq<Event>)
    requires IsWhole(file)
    requires var before, ss := LoadLedger(file), Samples(events);
             && OrderedAfter(before, ss)
             && forall i | 0 <= i < |ss| && !Survival(events).0[i] :: IsInnerAfter(before, ss, i)
    ensures LoadLedger(Exec(Machine(file, LoadLedger(file)), events).file) == Run(LoadLedger(file), Samples(events))
  {
    var before := LoadLedger(file);
    var ss, keep := Samples(events), Survival(events).0;
    OnlySurvivingSamplesCount(file, events);
    if before.Some? {
      InnerSamplesDoNotMatter(before.value, ss, keep);
      RunOfSome(before.value, ss);
      RunOfSome(before.value, Filter(ss, keep));
    } else if ss != [] {
      var first, rest, restKeep := Next(None, ss[0]), ss[1..], keep[1..];
      assert keep[0];
      forall i | 0 <= i < |rest| && !restKeep[i] ensures IsInner(first, rest, i) {
        assert IsInnerAfter(before, ss, i + 1);
      }
      InnerSamplesDoNotMatter(first, rest, restKeep);
      assert Filter(ss, keep) == [ss[0]] + Filter(rest, restKeep);
    }
  }

  lemma RunOfSome(l: Ledger, ss: seq<Sample>)
    ensures Run(Some(l), ss) == Some(RunFrom(l, ss))
  {
  }

  // ---------- quota warnings and projection ----------

  /** The highest threshold, in percent, that the quota is used up to. */
  function Level(used: int, quota: int): int {
    if used >= quota then 100
    else if 100 * used >= 95 * quota then 95
    else if 100 * used >= 85 * quota then 85
    else if 100 * used >= 70 * quota then 70
    else 0
  }

  /** Levels are exact: the highest of the thresholds that the used bytes have reached. */
  lemma LevelIsTheHighestReached(used: int, quota: int)
    requires used >= 0 && quota >= 1
    ensures var level := Level(used, quota);
            && level in {0, 70, 85, 95, 100} && 100 * used >= level * quota
            && forall t | t in {0, 70, 85, 95, 100} :: 100 * used >= t * quota ==> t <= level
  {
  }

  /** How many warnings can lie below a level. */
  function LevelRank(level: int): nat {
    if level >= 100 then 4 else if level >= 95 then 3 else if level >= 85 then 2 else if level >= 70 then 1 else 0
  }

  function RemainingSeconds(now: Moment): int {
    now.daysInMonth * 86400 - ((now.day - 1) * 86400 + now.hour * 3600 + now.minute * 60 + now.second)
  }

  lemma RemainingIsWithinTheMonth(now: Moment)
    requires now.Valid()
    ensures 1 <= RemainingSeconds(now) <= now.daysInMonth * 86400
  {
  }

  /** Seconds since tracking started; none when the text of that moment cannot be read. */
  function TrackedSeconds(l: Ledger, now: Moment, readTime: string -> Option<int>): real {
    match readTime(l.trackingStarted)
    case None => 0.0
    case Some(started) => NotNegative(now.instant - started) as real / 1_000_000.0
  }

  function Projected(l: Ledger, now: Moment, readTime: string -> Option<int>): int {
    var used := l.total.tx;
    var tracked := TrackedSeconds(l, now, readTime);
    if tracked >= 300.0 then
      (used as real + NotNegative(used - l.baselineTx) as real / tracked * RemainingSeconds(now) as real).Floor
    else used
  }

  lemma ProjectionIsNotBelowUse(l: Ledger, now: Moment, readTime: string -> Option<int>)
    requires now.Valid()
    ensures Projected(l, now, readTime) >= l.total.tx
    ensures TrackedSeconds(l, now, readTime) >= 300.0 && l.total.tx <= l.baselineTx ==>
              Projected(l, now, readTime) == l.total.tx
  {
    var tracked := TrackedSeconds(l, now, readTime);
    if tracked >= 300.0 {
      var measured := NotNegative(l.total.tx - l.baselineTx) as real;
      RemainingIsWithinTheMonth(now);
      var rate := measured / tracked;
      assert rate >= 0.0;
      assert rate * RemainingSeconds(now) as real >= 0.0;
    }
  }

  /** The rest of the month counts exactly: with the time of the month that is over it makes the whole month. */
  lemma RemainingIsExact(now: Moment)
    ensures RemainingSeconds(now) ==
            (now.daysInMonth - now.day) * 24 * 60 * 60 + (24 * 60 - now.hour * 60 - now.minute) * 60 - now.second
  {
  }

  /** The projection without division. Before tracking has lasted five minutes it is the bytes used. After that it is
      the largest number of bytes that is not above the bytes used plus, for the rest of the month, the rate since
      tracking started, of the bytes above the baseline; all times in microseconds. */
  lemma ProjectionIsExact(l: Ledger, now: Moment, readTime: string -> Option<int>, started: int)
    requires readTime(l.trackingStarted) == Some(started)
    ensures var used, tracked, p := l.total.tx, now.instant - started, Projected(l, now, readTime);
            var measured := if used > l.baselineTx then used - l.baselineTx else 0;
            && (tracked < 300_000_000 ==> p == used)
            && (tracked >= 300_000_000 ==>
                  && (p - used) * tracked <= measured * RemainingSeconds(now) * 1_000_000
                  && measured * RemainingSeconds(now) * 1_000_000 < (p - used + 1) * tracked)
  {
    hide Projected, RemainingSeconds;
    ProjectedIs(l, now, readTime, started);
    var tracked := now.instant - started;
    if tracked >= 300_000_000 {
      var measured := NotNegative(l.total.tx - l.baselineTx);
      ProjectedGrowth(l.total.tx, measured, tracked, RemainingSeconds(now), Projected(l, now, readTime));
    }
  }

  lemma ProjectedGrowth(used: int, measured: int, tracked: int, remaining: int, p: int)
    requires tracked > 0
    requires p == (used as real + measured as real / (tracked as real / 1_000_000.0) * remaining as real).Floor
    ensures (p - used) * tracked <= measured * remaining * 1_000_000 < (p - used + 1) * tracked
  {
    var growth := measured as real / (tracked as real / 1_000_000.0) * remaining as real;
    FloorOfSum(used, growth);
    GrowthIsExact(measured, tracked, remaining, growth);
    assert p - used == growth.Floor;
  }

  lemma ProjectedIs(l: Ledger, now: Moment, readTime: string -> Option<int>, started: int)
    requires readTime(l.trackingStarted) == Some(started)
    ensures var used, tracked := l.total.tx, now.instant - started;
            Projected(l, now, readTime) ==
            if tracked < 300_000_000 then used
            else (used as real +
                  NotNegative(used - l.baselineTx) as real / (tracked as real / 1_000_000.0) *
                  RemainingSeconds(now) as real).Floor
  {
    hide RemainingSeconds;
  }

  lemma FloorOfSum(n: int, x: real)
    ensures (n as real + x).Floor == n + x.Floor
  {
  }

  function Product(a: int, b: int): int {
    a * b
  }

  function RealProduct(a: real, b: real): real {
    a * b
  }

  lemma ProductAsReal(a: int, b: int)
    ensures Product(a, b) as real == RealProduct(a as real, b as real)
  {
    CastProduct(a, b);
  }

  lemma RealProductIsMonotone(a: real, b: real, t: real)
    requires t > 0.0
    ensures a <= b ==> RealProduct(a, t) <= RealProduct(b, t)
    ensures a < b ==> RealProduct(a, t) < RealProduct(b, t)
  {
    TimesIsMonotone(a, b, t);
  }

  lemma FloorTimes(x: real, t: int, k: int)
    requires t > 0 && RealProduct(x, t as real) == k as real
    ensures Product(x.Floor, t) <= k < Product(x.Floor + 1, t)
  {
    hide Product, RealProduct;
    var f := x.Floor;
    ProductAsReal(f, t);
    ProductAsReal(f + 1, t);
    RealProductIsMonotone(f as real, x, t as real);
    RealProductIsMonotone(x, (f + 1) as real, t as real);
  }

  lemma GrowthIsExact(measured: int, tracked: int, remaining: int, growth: real)
    requires tracked > 0
    requires growth == measured as real / (tracked as real / 1_000_000.0) * remaining as real
    ensures growth.Floor * tracked <= measured * remaining * 1_000_000 < (growth.Floor + 1) * tracked
  {
    RateTimes(measured as real, tracked as real, remaining as real);
    CastProduct(measured, remaining);
    CastProduct(measured * remaining, 1_000_000);
    FloorTimes(growth, tracked, measured * remaining * 1_000_000);
  }

  lemma CastProduct(a: int, b: int)
    ensures (a * b) as real == a as real * b as real
  {
  }

  lemma TimesIsMonotone(a: real, b: real, t: real)
    requires t > 0.0
    ensures a <= b ==> a * t <= b * t
    ensures a < b ==> a * t < b * t
  {
  }

  lemma RateTimes(m: real, t: real, r: real)
    requires t > 0.0
    ensures m / (t / 1_000_000.0) * r * t == m * r * 1_000_000.0
  {
    var seconds := t / 1_000_000.0;
    var rate := m / seconds;
    assert rate * seconds == m;
    calc {
      rate * r * t;
    ==
      rate * r * (seconds * 1_000_000.0);
    ==
      (rate * seconds) * r * 1_000_000.0;
    }
  }

  /** Without a readable start of tracking the projection is the bytes used. */
  lemma ProjectionWithoutStart(l: Ledger, now: Moment, readTime: string -> Option<int>)
    requires readTime(l.trackingStarted).None?
    ensures Projected(l, now, readTime) == l.total.tx
  {
  }

  datatype Report = Report(month: string, total: Bytes, quota: int, level: int, projected: int, kernel: Bytes)

  class TrafficAccountant {
    const readTime: string -> Option<int>
    var file: Option<string>
    var ledger: Option<Ledger>
    var quotaBytes: int
    var lastWarningLevel: int
    /** Warnings logged since this process started or the month changed. */
    var warnings: seq<int>

    /** What every ledger that this process began meets; one from the state file may not. */
    predicate Sound(l: Option<Ledger>) {
      l.Some? ==> l.value.total.tx >= l.value.baselineTx
    }

    predicate Valid()
      reads this
    {
      && quotaBytes >= 1
      && lastWarningLevel in {0, 70, 85, 95, 100} && |warnings| <= LevelRank(lastWarningLevel)
    }

    /** A file that other programs wrote with members missing is outside the model. */
    constructor (file: Option<string>, quotaBytes: int, readTime: string -> Option<int>)
      requires quotaBytes >= 1
      ensures Valid() && this.file == file && this.quotaBytes == quotaBytes && this.readTime == readTime
      ensures warnings == []
      ensures IsWhole(file) ==> ledger == LoadLedger(file)
    {
      this.file := file;
      this.readTime := readTime;
      ledger := LoadLedger(file);
      this.quotaBytes := quotaBytes;
      lastWarningLevel := 0;
      warnings := [];
    }

    method SetQuotaBytes(value: int) returns (r: Result<()>)
      requires Valid()
      modifies this`quotaBytes
      ensures Valid()
      ensures r == if value < 1 then Err(Fault) else Ok(())
      ensures quotaBytes == if value < 1 then old(quotaBytes) else value
    {
      if value < 1 {
        return Err(Fault);
      }
      quotaBytes := value;
      return Ok(());
    }

    /** The bookkeeping of one sample, up to the write of the state file. */
    method Record(now: Moment, boot: string, counters: Bytes)
      requires Valid() && counters.rx >= 0 && counters.tx >= 0
      modifies this`ledger, this`lastWarningLevel, this`warnings
      ensures Valid() && ledger == Some(Next(old(ledger), Sample(now, boot, counters)))
      ensures var sameMonth := old(ledger).Some? && old(ledger).value.month == now.month;
              && warnings == (if sameMonth then old(warnings) else [])
              && lastWarningLevel == if sameMonth then old(lastWarningLevel) else 0
    {
      if ledger.None? || ledger.value.month != now.month {
        var firstSampleEver := ledger.None?;
        var initial := if firstSampleEver then counters else ZERO;
        ledger := Some(Ledger(now.month, boot, counters, initial, initial.tx, now.iso, now.iso));
        lastWarningLevel := 0;
        warnings := [];
      } else if ledger.value.boot != boot {
        ledger := Some(ledger.value.(boot := boot, last := counters, total := Plus(ledger.value.total, counters)));
      } else {
        var previous := ledger.value.last;
        var rx := ledger.value.total.rx + NotNegative(counters.rx - previous.rx);
        var tx := ledger.value.total.tx + NotNegative(counters.tx - previous.tx);
        ledger := Some(ledger.value.(total := Bytes(rx, tx), last := counters));
      }
      ledger := Some(ledger.value.(updatedAt := now.iso));
    }

    /** Logs a warning when a threshold is crossed for the first time. */
    method Warn(level: int)
      requires Valid() && level in {0, 70, 85, 95, 100}
      modifies this`lastWarningLevel, this`warnings
      ensures Valid()
      ensures warnings == if level > old(lastWarningLevel) then old(warnings) + [level] else old(warnings)
      ensures lastWarningLevel == if level > old(lastWarningLevel) then level else old(lastWarningLevel)
    {
      if level > lastWarningLevel {
        warnings := warnings + [level];
        lastWarningLevel := level;
      }
    }

    /** One sample. `saves` is false when writing the state file fails; then nothing is reported. */
    method TakeSample(now: Moment, boot: string, counters: Bytes, saves: bool) returns (r: Option<Report>)
      requires Valid() && now.Valid() && counters.rx >= 0 && counters.tx >= 0
      modifies this
      ensures Valid() && |warnings| <= 4 && quotaBytes == old(quotaBytes)
      ensures ledger == Some(Next(old(ledger), Sample(now, boot, counters)))
      ensures file == if saves then Some(LedgerText(ledger.value)) else old(file)
      ensures saves ==> LoadLedger(file) == ledger
      ensures r == if saves then Some(ReportOf(ledger.value, now, quotaBytes, counters, readTime)) else None
      ensures r.Some? ==>
                && r.value.month == now.month && r.value.total == ledger.value.total && r.value.kernel == counters
                && r.value.quota == quotaBytes && r.value.level == Level(ledger.value.total.tx, quotaBytes)
                && r.value.projected == Projected(ledger.value, now, readTime) >= r.value.total.tx
      ensures Sound(old(ledger)) || old(ledger).value.month != now.month ==> Sound(ledger)
      ensures var sameMonth := old(ledger).Some? && old(ledger).value.month == now.month;
              var kept := if sameMonth then old(warnings) else [];
              var level := if sameMonth then old(lastWarningLevel) else 0;
              warnings == if r.Some? && r.value.level > level then kept + [r.value.level] else kept
    {
      Record(now, boot, counters);
      if !saves {
        return None;
      }
      file := Some(LedgerText(ledger.value));
      LedgerRoundTrip(ledger.value);
      Warn(Level(ledger.value.total.tx, quotaBytes));
      ProjectionIsNotBelowUse(ledger.value, now, readTime);
      r := Some(ReportOf(ledger.value, now, quotaBytes, counters, readTime));
    }
  }

  function ReportOf(l: Ledger, now: Moment, quota: int, kernel: Bytes, readTime: string -> Option<int>): Report {
    Report(now.month, l.total, quota, Level(l.total.tx, quota), Projected(l, now, readTime), kernel)
  }
}
