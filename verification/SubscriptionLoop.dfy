/** Subscription.run (gnmi/server/subscribe.go): the select loop that counts the entries of the events, and
    sends telemetry updates on changes, on sampling ticks and on heartbeats (section 3.5.1.5.2 of the gNMI
    specification). Each input is one ready case of the select. */
module SubscriptionLoop {
  import opened Text
  import opened Telemetry

  datatype Mode = OnChange | Sample | TargetDefined

  datatype Config = Config(mode: Mode, suppressRedundant: bool)

  /** What the loop can take next. The flag sent is the answer of the telemetryUpdate call, if there is one. */
  datatype Input =
    | Arrived(event: Event, sent: bool)
    | SamplingTick
    | HeartbeatTick
    | Expired(sent: bool)
    | Closed

  /** A call of telemetryUpdate: after how many inputs, and with which counts. */
  datatype Report = Report(at: nat, updated: Counts, deleted: Counts)

  /** Running, returned, or waiting for ever to put a tick into its own full channel. */
  datatype Status = Running | Quit | Blocked

  datatype Loop = Loop(updated: Counts, deleted: Counts, timers: seq<bool>, status: Status, reports: seq<Report>, taken: nat)

  const WRAP := 0x1_0000_0000
  const CAPACITY := 2

  type Counts = map<string, nat>

  function Add(c: Counts, p: string): Counts {
    c[p := ((if p in c then c[p] else 0) + 1) % WRAP]
  }

  function AddAll(c: Counts, paths: seq<string>): Counts {
    if paths == [] then c else Add(AddAll(c, Init(paths)), Last(paths))
  }

  const START := Loop(map[], map[], [], Running, [], 0)

  predicate Counted(cfg: Config) {
    cfg.mode == OnChange || cfg.mode == Sample
  }

  /** A telemetryUpdate call, and the fresh lists if it succeeds. */
  function Send(s: Loop, sent: bool): Loop {
    var reported := s.(reports := s.reports + [Report(s.taken, s.updated, s.deleted)]);
    if sent then reported.(updated := map[], deleted := map[]) else reported.(status := Quit)
  }

  /** A tick is put into the channel, which has room for two. */
  function Tick(s: Loop, heartbeat: bool): Loop {
    if |s.timers| < CAPACITY then s.(timers := s.timers + [heartbeat]) else s.(status := Blocked)
  }

  function Count(s: Loop, e: Event): Loop {
    s.(updated := AddAll(s.updated, e.updated), deleted := AddAll(s.deleted, e.deleted))
  }

  /** suppress_redundant skips the update of a sampling tick without changes. */
  predicate Due(cfg: Config, s: Loop, heartbeat: bool) {
    heartbeat || !cfg.suppressRedundant || s.updated != map[] || s.deleted != map[]
  }

  function Step(cfg: Config, s: Loop, input: Input): Loop {
    if s.status != Running then s
    else
      var s := s.(taken := s.taken + 1);
      match input
      case Arrived(e, sent) =>
        if cfg.mode == OnChange then Send(Count(s, e), sent)
        else if cfg.mode == Sample then Count(s, e)
        else s
      case SamplingTick => Tick(s, false)
      case HeartbeatTick => Tick(s, true)
      case Expired(sent) =>
        if s.timers == [] then s
        else
          var rest := s.(timers := s.timers[1..]);
          if Due(cfg, s, s.timers[0]) then Send(rest, sent) else rest
      case Closed => s.(status := Quit)
  }

  function Run(cfg: Config, inputs: seq<Input>): Loop {
    if inputs == [] then START else Step(cfg, Run(cfg, Init(inputs)), Last(inputs))
  }

  /** Events are counted in the modes ON_CHANGE and SAMPLE and ignored in any other; only ON_CHANGE reports them at once. */
  lemma EventCounts(cfg: Config, s: Loop, e: Event, sent: bool)
    requires s.status == Running
    ensures var t := Step(cfg, s, Arrived(e, sent));
            && (cfg.mode == TargetDefined ==> t.updated == s.updated && t.deleted == s.deleted)
            && (cfg.mode == Sample ==> t.updated == AddAll(s.updated, e.updated) && t.deleted == AddAll(s.deleted, e.deleted))
            && |t.reports| == |s.reports| + (if cfg.mode == OnChange then 1 else 0)
  {
  }

  // ---------------------------------------------------------------- what has been received

  /** The updated, or deleted, entries of the events among these inputs. */
  function Entries(cfg: Config, inputs: seq<Input>, deleted: bool): seq<string> {
    if inputs == [] then []
    else
      Entries(cfg, Init(inputs), deleted)
      + match Last(inputs)
        case Arrived(e, _) => if !Counted(cfg) then [] else if deleted then e.deleted else e.updated
        case _ => []
  }

  /** How often each path occurs, modulo the width of the counters. */
  function Tally(paths: seq<string>): Counts {
    AddAll(map[], paths)
  }

  /** A counter says how often its path was received, as far as 32 bits go, and there is one for every path received. */
  lemma {:induction false} TallyExact(paths: seq<string>, p: string)
    ensures p in Tally(paths) <==> p in paths
    ensures p in paths ==> Tally(paths)[p] == multiset(paths)[p] % 4294967296
  {
    if paths != [] {
      TallyExact(Init(paths), p);
      assert paths == Init(paths) + [Last(paths)];
      if p !in Init(paths) {
        assert multiset(Init(paths))[p] == 0;
      }
      OneMoreWraps(multiset(Init(paths))[p]);
    }
  }

  lemma OneMoreWraps(n: nat)
    ensures (n % WRAP + 1) % WRAP == (n + 1) % WRAP
  {
  }

  lemma {:induction false} AddAllConcat(c: Counts, a: seq<string>, b: seq<string>)
    ensures AddAll(c, a + b) == AddAll(AddAll(c, a), b)
  {
    if b == [] {
      assert a + b == a;
    } else {
      assert Init(a + b) == a + Init(b) && Last(a + b) == Last(b);
      AddAllConcat(c, a, Init(b));
    }
  }

  /** The sum of the counters. */
  ghost function Total(c: Counts): nat {
    if c == map[] then 0
    else
      var p :| p in c;
      c[p] + Total(c - {p})
  }

  lemma {:induction false} TotalWithout(c: Counts, p: string)
    requires p in c
    ensures Total(c) == c[p] + Total(c - {p})
    decreases |c|
  {
    var q :| q in c && Total(c) == c[q] + Total(c - {q});
    if q != p {
      TotalWithout(c - {q}, p);
      TotalWithout(c - {p}, q);
      assert c - {q} - {p} == c - {p} - {q};
    }
  }

  function CountOf(c: Counts, p: string): nat {
    if p in c then c[p] else 0
  }

  lemma TotalParts(c: Counts, p: string)
    ensures Total(c) == CountOf(c, p) + Total(c - {p})
    ensures Total(Add(c, p)) == (CountOf(c, p) + 1) % WRAP + Total(c - {p})
  {
    TotalWithout(Add(c, p), p);
    assert Add(c, p) - {p} == c - {p};
    if p in c {
      TotalWithout(c, p);
    } else {
      assert c - {p} == c;
    }
  }

  lemma WrappedSum(v: nat, r: nat)
    requires v < WRAP
    ensures ((v + 1) % WRAP + r) % WRAP == (v + r + 1) % WRAP
    ensures v + 1 < WRAP ==> (v + 1) % WRAP == v + 1
  {
    if v + 1 == WRAP {
      assert (v + 1) % WRAP == 0;
    }
  }

  lemma SameWrapped(a: nat, b: nat)
    requires a % WRAP == b % WRAP
    ensures (a + 1) % WRAP == (b + 1) % WRAP
  {
    OneMoreWraps(a);
    OneMoreWraps(b);
  }

  lemma {:induction false} TallyBelow(paths: seq<string>, p: string)
    requires p in Tally(paths)
    ensures Tally(paths)[p] < WRAP
  {
    TallyExact(paths, p);
  }

  lemma TallyUnfold(paths: seq<string>)
    ensures paths == [] ==> Total(Tally(paths)) == 0
    ensures paths != [] ==> |paths| == |Init(paths)| + 1 && Tally(paths) == Add(Tally(Init(paths)), Last(paths))
    ensures paths != [] ==> CountOf(Tally(Init(paths)), Last(paths)) < WRAP
  {
    if paths != [] && Last(paths) in Tally(Init(paths)) {
      TallyBelow(Init(paths), Last(paths));
    }
  }

  /** The counters add up to the number of entries received, as far as 32 bits go, and exactly as long as none wraps. */
  lemma {:induction false} TallyConserves(paths: seq<string>)
    ensures Total(Tally(paths)) % WRAP == |paths| % WRAP
    ensures |paths| < WRAP ==> Total(Tally(paths)) == |paths|
    decreases |paths|
  {
    hide *;
    TallyUnfold(paths);
    if paths != [] {
      var before, p := Tally(Init(paths)), Last(paths);
      TallyConserves(Init(paths));
      TotalParts(before, p);
      var v, r := CountOf(before, p), Total(before - {p});
      WrappedSum(v, r);
      SameWrapped(v + r, |Init(paths)|);
    }
  }

  // ---------------------------------------------------------------- every run

  /** The entries received by the inputs from a to b. */
  function Between(cfg: Config, inputs: seq<Input>, a: nat, b: nat, deleted: bool): seq<string>
    requires a <= b <= |inputs|
  {
    Entries(cfg, inputs[a..b], deleted)
  }

  /** When the last telemetryUpdate call was. */
  function Since(reports: seq<Report>): nat {
    if reports == [] then 0 else Last(reports).at
  }

  /** A report has exactly the entries received since the one before it. */
  ghost predicate ReportExact(cfg: Config, inputs: seq<Input>, reports: seq<Report>, i: nat)
    requires i < |reports|
  {
    var from, r := Since(reports[..i]), reports[i];
    && from <= r.at <= |inputs|
    && r.updated == Tally(Between(cfg, inputs, from, r.at, false))
    && r.deleted == Tally(Between(cfg, inputs, from, r.at, true))
  }

  /** The lists have exactly the entries received since the last report. */
  ghost predicate ListsExact(cfg: Config, inputs: seq<Input>, s: Loop) {
    && Since(s.reports) <= s.taken <= |inputs|
    && s.updated == Tally(Between(cfg, inputs, Since(s.reports), s.taken, false))
    && s.deleted == Tally(Between(cfg, inputs, Since(s.reports), s.taken, true))
  }

  ghost predicate Accounted(cfg: Config, inputs: seq<Input>, s: Loop) {
    && s.taken <= |inputs| && (s.status == Running ==> s.taken == |inputs|)
    && (s.status != Quit ==> ListsExact(cfg, inputs, s))
    && forall i :: 0 <= i < |s.reports| ==> ReportExact(cfg, inputs, s.reports, i)
  }

  lemma BetweenSame(cfg: Config, inputs: seq<Input>, x: Input, a: nat, b: nat, deleted: bool)
    requires a <= b <= |inputs|
    ensures Between(cfg, inputs + [x], a, b, deleted) == Between(cfg, inputs, a, b, deleted)
  {
    assert (inputs + [x])[a..b] == inputs[a..b];
  }

  lemma BetweenMore(cfg: Config, inputs: seq<Input>, x: Input, a: nat, deleted: bool)
    requires a <= |inputs|
    ensures Between(cfg, inputs + [x], a, |inputs| + 1, deleted)
            == if x.Arrived? && Counted(cfg)
               then Between(cfg, inputs, a, |inputs|, deleted) + (if deleted then x.event.deleted else x.event.updated)
               else Between(cfg, inputs, a, |inputs|, deleted)
  {
    assert Between(cfg, inputs, a, |inputs|, deleted) + [] == Between(cfg, inputs, a, |inputs|, deleted);
    var all := (inputs + [x])[a..];
    assert all == (inputs + [x])[a..|inputs| + 1];
    assert Init(all) == inputs[a..] && Last(all) == x && inputs[a..] == inputs[a..|inputs|];
  }

  lemma ReportsStay(cfg: Config, inputs: seq<Input>, x: Input, reports: seq<Report>, i: nat)
    requires i < |reports| && ReportExact(cfg, inputs, reports, i)
    ensures ReportExact(cfg, inputs + [x], reports, i)
  {
    var from, r := Since(reports[..i]), reports[i];
    BetweenSame(cfg, inputs, x, from, r.at, false);
    BetweenSame(cfg, inputs, x, from, r.at, true);
  }

  lemma ReportsMore(cfg: Config, inputs: seq<Input>, reports: seq<Report>, r: Report, i: nat)
    requires i < |reports| && ReportExact(cfg, inputs, reports, i)
    ensures ReportExact(cfg, inputs, reports + [r], i)
  {
    assert (reports + [r])[..i] == reports[..i];
  }

  /** Counting, or not counting, the input that was just taken keeps the lists exact. */
  lemma TakeExact(cfg: Config, inputs: seq<Input>, s: Loop, x: Input)
    requires ListsExact(cfg, inputs, s) && s.taken == |inputs|
    ensures var t := s.(taken := s.taken + 1);
            ListsExact(cfg, inputs + [x], if x.Arrived? && Counted(cfg) then Count(t, x.event) else t)
  {
    var a := Since(s.reports);
    BetweenMore(cfg, inputs, x, a, false);
    BetweenMore(cfg, inputs, x, a, true);
    if x.Arrived? && Counted(cfg) {
      AddAllConcat(map[], Between(cfg, inputs, a, |inputs|, false), x.event.updated);
      AddAllConcat(map[], Between(cfg, inputs, a, |inputs|, true), x.event.deleted);
    }
  }

  lemma SendAccounted(cfg: Config, inputs: seq<Input>, s: Loop, sent: bool)
    requires ListsExact(cfg, inputs, s) && s.taken == |inputs|
    requires forall i :: 0 <= i < |s.reports| ==> ReportExact(cfg, inputs, s.reports, i)
    ensures Accounted(cfg, inputs, Send(s, sent))
  {
    var r := Report(s.taken, s.updated, s.deleted);
    var all := s.reports + [r];
    assert all[..|s.reports|] == s.reports;
    forall i | 0 <= i < |all|
      ensures ReportExact(cfg, inputs, all, i)
    {
      if i < |s.reports| {
        ReportsMore(cfg, inputs, s.reports, r, i);
      }
    }
    assert inputs[|inputs|..|inputs|] == [];
  }

  lemma StepAccounted(cfg: Config, inputs: seq<Input>, s: Loop, x: Input)
    requires Accounted(cfg, inputs, s)
    ensures Accounted(cfg, inputs + [x], Step(cfg, s, x))
  {
    hide Due, AddAll, Entries, Tally, Between, Since, ReportExact, ListsExact;
    var all := inputs + [x];
    forall i | 0 <= i < |s.reports|
      ensures ReportExact(cfg, all, s.reports, i)
    {
      ReportsStay(cfg, inputs, x, s.reports, i);
    }
    if s.status == Running {
      TakeExact(cfg, inputs, s, x);
      var t := s.(taken := s.taken + 1);
      if x.Arrived? && cfg.mode == OnChange {
        SendAccounted(cfg, all, Count(t, x.event), x.sent);
      } else if x.Expired? && t.timers != [] {
        ListsOnly(cfg, all, t, t.(timers := t.timers[1..]));
        if Due(cfg, t, t.timers[0]) {
          SendAccounted(cfg, all, t.(timers := t.timers[1..]), x.sent);
        }
      } else if x.SamplingTick? || x.HeartbeatTick? {
        ListsOnly(cfg, all, t, Step(cfg, s, x));
      }
    } else if s.status == Blocked {
      ListsStay(cfg, inputs, x, s);
    }
  }

  lemma ListsStay(cfg: Config, inputs: seq<Input>, x: Input, s: Loop)
    requires ListsExact(cfg, inputs, s)
    ensures ListsExact(cfg, inputs + [x], s)
  {
    BetweenSame(cfg, inputs, x, Since(s.reports), s.taken, false);
    BetweenSame(cfg, inputs, x, Since(s.reports), s.taken, true);
  }

  lemma ListsOnly(cfg: Config, inputs: seq<Input>, s: Loop, t: Loop)
    requires ListsExact(cfg, inputs, s)
    requires t.updated == s.updated && t.deleted == s.deleted && t.reports == s.reports && t.taken == s.taken
    ensures ListsExact(cfg, inputs, t)
  {
  }

  /** In every run each telemetryUpdate call has exactly the entries received since the call before it, and the
      lists have exactly those since the last call. */
  lemma {:induction false} RunAccounted(cfg: Config, inputs: seq<Input>)
    ensures Accounted(cfg, inputs, Run(cfg, inputs))
  {
    if inputs == [] {
      assert inputs[0..0] == [];
    } else {
      RunAccounted(cfg, Init(inputs));
      StepAccounted(cfg, Init(inputs), Run(cfg, Init(inputs)), Last(inputs));
      assert inputs == Init(inputs) + [Last(inputs)];
    }
  }

  lemma TallyEmpty(paths: seq<string>)
    ensures Tally(paths) == map[] <==> paths == []
  {
    if paths != [] {
      TallyExact(paths, paths[0]);
    }
  }

  // ---------------------------------------------------------------- which tick an expiry processes

  /** The ticks among these inputs. */
  function Ticks(inputs: seq<Input>): seq<Input> {
    if inputs == [] then []
    else Ticks(Init(inputs)) + if Last(inputs) == SamplingTick || Last(inputs) == HeartbeatTick then [Last(inputs)] else []
  }

  /** How many of them have been processed: an expiry processes one if one waits. */
  function Processed(inputs: seq<Input>): (n: nat)
    ensures n <= |Ticks(inputs)|
  {
    if inputs == [] then 0
    else
      var n := Processed(Init(inputs));
      if Last(inputs).Expired? && n < |Ticks(Init(inputs))| then n + 1 else n
  }

  /** In every run that goes on the channel holds, in order, the ticks that were taken and not yet processed, each true
      exactly for a heartbeat. */
  lemma {:induction false} TimersExact(cfg: Config, inputs: seq<Input>)
    requires Run(cfg, inputs).status == Running
    ensures var timers, ticks, n := Run(cfg, inputs).timers, Ticks(inputs), Processed(inputs);
            && |timers| == |ticks| - n
            && forall k :: 0 <= k < |timers| ==> (timers[k] <==> ticks[n + k] == HeartbeatTick)
  {
    hide Due, AddAll, Step;
    if inputs != [] {
      StepTimers(cfg, Run(cfg, Init(inputs)), Last(inputs));
      TimersExact(cfg, Init(inputs));
    }
  }

  lemma StepTimers(cfg: Config, s: Loop, x: Input)
    requires Step(cfg, s, x).status == Running
    ensures s.status == Running
    ensures Step(cfg, s, x).timers == match x
                                      case SamplingTick => s.timers + [false]
                                      case HeartbeatTick => s.timers + [true]
                                      case Expired(_) => if s.timers == [] then [] else s.timers[1..]
                                      case _ => s.timers
  {
    hide Due, AddAll;
  }

  /** An expired timer makes a telemetryUpdate call exactly when a tick waits, and the first one that waits is a heartbeat,
      or redundant updates are not suppressed, or some entry was received since the last call. */
  lemma SuppressedExactly(cfg: Config, inputs: seq<Input>, sent: bool)
    requires Run(cfg, inputs).status == Running
    ensures var s := Run(cfg, inputs);
            var since, ticks, n := Since(s.reports), Ticks(inputs), Processed(inputs);
            && since <= |inputs|
            && |Step(cfg, s, Expired(sent)).reports|
               == |s.reports| + (if n < |ticks| && (|| ticks[n] == HeartbeatTick || !cfg.suppressRedundant
                                                    || Between(cfg, inputs, since, |inputs|, false) != []
                                                    || Between(cfg, inputs, since, |inputs|, true) != [])
                                 then 1 else 0)
  {
    var s := Run(cfg, inputs);
    RunAccounted(cfg, inputs);
    TimersExact(cfg, inputs);
    TallyEmpty(Between(cfg, inputs, Since(s.reports), |inputs|, false));
    TallyEmpty(Between(cfg, inputs, Since(s.reports), |inputs|, true));
  }

  /** A subscription on changes reports every event at once, and nothing but that event. */
  lemma {:induction false} OnChangeEmpty(cfg: Config, inputs: seq<Input>)
    requires cfg.mode == OnChange
    ensures Run(cfg, inputs).status != Quit ==> Run(cfg, inputs).updated == map[] && Run(cfg, inputs).deleted == map[]
  {
    if inputs != [] {
      OnChangeEmpty(cfg, Init(inputs));
    }
  }

  lemma OnChangeReports(cfg: Config, inputs: seq<Input>, e: Event, sent: bool)
    requires cfg.mode == OnChange && Run(cfg, inputs).status == Running
    ensures var s := Run(cfg, inputs);
            Step(cfg, s, Arrived(e, sent)).reports == s.reports + [Report(|inputs| + 1, Tally(e.updated), Tally(e.deleted))]
  {
    OnChangeEmpty(cfg, inputs);
    RunAccounted(cfg, inputs);
  }

  predicate IsTick(input: Input) {
    input == SamplingTick || input == HeartbeatTick
  }

  /** The i-th input is a tick that finds the channel full. */
  ghost predicate BlocksAt(cfg: Config, inputs: seq<Input>, i: nat)
    requires i < |inputs|
  {
    var s := Run(cfg, inputs[..i]);
    s.status == Running && |s.timers| == CAPACITY && IsTick(inputs[i])
  }

  lemma {:induction false} TimersFit(cfg: Config, inputs: seq<Input>)
    ensures |Run(cfg, inputs).timers| <= CAPACITY
  {
    if inputs != [] {
      TimersFit(cfg, Init(inputs));
      hide Due, AddAll;
    }
  }

  lemma StepBlocks(cfg: Config, s: Loop, x: Input)
    requires |s.timers| <= CAPACITY
    ensures Step(cfg, s, x).status == Blocked
            <==> s.status == Blocked || (s.status == Running && |s.timers| == CAPACITY && IsTick(x))
  {
    hide Due, AddAll;
  }

  /** The loop hangs exactly when a tick came while two others were waiting to be processed. */
  lemma {:induction false} BlockedExactly(cfg: Config, inputs: seq<Input>)
    ensures Run(cfg, inputs).status == Blocked <==> exists i :: 0 <= i < |inputs| && BlocksAt(cfg, inputs, i)
    decreases |inputs|
  {
    if inputs != [] {
      var front := Init(inputs);
      BlockedExactly(cfg, front);
      TimersFit(cfg, front);
      StepBlocks(cfg, Run(cfg, front), Last(inputs));
      hide Step;
      forall i | 0 <= i < |front|
        ensures BlocksAt(cfg, inputs, i) <==> BlocksAt(cfg, front, i)
      {
        assert front[..i] == inputs[..i];
      }
      assert inputs[..|front|] == front && inputs[|front|] == Last(inputs);
      assert BlocksAt(cfg, inputs, |front|)
             <==> Run(cfg, front).status == Running && |Run(cfg, front).timers| == CAPACITY && IsTick(Last(inputs));
    }
  }

  /** The i-th input ends the loop: it is the end of the subscription, or a call that it makes fails. */
  ghost predicate QuitsAt(cfg: Config, inputs: seq<Input>, i: nat)
    requires i < |inputs|
  {
    var s := Run(cfg, inputs[..i]);
    && s.status == Running
    && match inputs[i]
       case Closed => true
       case Arrived(_, sent) => !sent && |Step(cfg, s, inputs[i]).reports| > |s.reports|
       case Expired(sent) => !sent && |Step(cfg, s, inputs[i]).reports| > |s.reports|
       case _ => false
  }

  lemma StepQuits(cfg: Config, s: Loop, x: Input)
    ensures Step(cfg, s, x).status == Quit
            <==> s.status == Quit
                 || (s.status == Running && match x
                                            case Closed => true
                                            case Arrived(_, sent) => !sent && |Step(cfg, s, x).reports| > |s.reports|
                                            case Expired(sent) => !sent && |Step(cfg, s, x).reports| > |s.reports|
                                            case _ => false)
  {
    hide Due, AddAll;
  }

  /** The loop returns exactly at such an input. */
  lemma {:induction false} QuitsExactly(cfg: Config, inputs: seq<Input>)
    ensures Run(cfg, inputs).status == Quit <==> exists i :: 0 <= i < |inputs| && QuitsAt(cfg, inputs, i)
    decreases |inputs|
  {
    if inputs != [] {
      var front := Init(inputs);
      QuitsExactly(cfg, front);
      StepQuits(cfg, Run(cfg, front), Last(inputs));
      hide Step;
      forall i | 0 <= i < |front|
        ensures QuitsAt(cfg, inputs, i) <==> QuitsAt(cfg, front, i)
      {
        assert front[..i] == inputs[..i];
      }
      assert inputs[..|front|] == front && inputs[|front|] == Last(inputs);
      assert QuitsAt(cfg, inputs, |front|) <==> Run(cfg, front).status == Running && Run(cfg, inputs).status == Quit;
    }
  }

  /** Three ticks in a row do that, whatever the subscription is. */
  lemma ThreeTicksBlock(cfg: Config)
    ensures Run(cfg, [SamplingTick, HeartbeatTick, SamplingTick]).status == Blocked
  {
    var one, two, three := [SamplingTick], [SamplingTick, HeartbeatTick], [SamplingTick, HeartbeatTick, SamplingTick];
    assert Init(one) == [] && Init(two) == one && Init(three) == two;
    assert Run(cfg, []) == START;
    assert Run(cfg, one).timers == [false];
    assert Run(cfg, two).timers == [false, true];
  }

  /** A third tick that is taken before the first one is processed blocks the loop in its own channel, for good. */
  lemma {:induction false} BlockedForGood(cfg: Config, inputs: seq<Input>, more: seq<Input>)
    requires Run(cfg, inputs).status == Running && |Run(cfg, inputs).timers| == CAPACITY
    requires more != [] && IsTick(more[0])
    ensures Run(cfg, inputs + more).status == Blocked
    ensures Run(cfg, inputs + more).reports == Run(cfg, inputs).reports
  {
    assert Init(inputs + more) == inputs + Init(more) && Last(inputs + more) == Last(more);
    if |more| == 1 {
      assert inputs + Init(more) == inputs;
    } else {
      BlockedForGood(cfg, inputs, Init(more));
    }
  }

  // ---------------------------------------------------------------- conservation

  function ListOf(r: Report, deleted: bool): Counts {
    if deleted then r.deleted else r.updated
  }

  /** What the reports so far add up to. */
  ghost function Reported(reports: seq<Report>, deleted: bool): nat {
    if reports == [] then 0 else Reported(Init(reports), deleted) + Total(ListOf(Last(reports), deleted))
  }

  lemma {:induction false} EntriesConcat(cfg: Config, a: seq<Input>, b: seq<Input>, deleted: bool)
    ensures |Entries(cfg, a + b, deleted)| == |Entries(cfg, a, deleted)| + |Entries(cfg, b, deleted)|
  {
    if b == [] {
      assert a + b == a;
    } else {
      assert Init(a + b) == a + Init(b) && Last(a + b) == Last(b);
      EntriesConcat(cfg, a, Init(b), deleted);
    }
  }

  lemma CutAt(cfg: Config, inputs: seq<Input>, a: nat, b: nat, deleted: bool)
    requires a <= b <= |inputs|
    ensures |Entries(cfg, inputs[..b], deleted)| == |Entries(cfg, inputs[..a], deleted)| + |Between(cfg, inputs, a, b, deleted)|
    ensures |Entries(cfg, inputs[..b], deleted)| <= |Entries(cfg, inputs, deleted)|
  {
    assert inputs[..b] == inputs[..a] + inputs[a..b] && inputs == inputs[..b] + inputs[b..];
    EntriesConcat(cfg, inputs[..a], inputs[a..b], deleted);
    EntriesConcat(cfg, inputs[..b], inputs[b..], deleted);
  }

  lemma {:induction false} ReportedSoFar(cfg: Config, inputs: seq<Input>, reports: seq<Report>, k: nat, deleted: bool)
    requires k <= |reports| && |Entries(cfg, inputs, deleted)| < WRAP
    requires forall i :: 0 <= i < k ==> ReportExact(cfg, inputs, reports, i)
    ensures Since(reports[..k]) <= |inputs|
    ensures Reported(reports[..k], deleted) == |Entries(cfg, inputs[..Since(reports[..k])], deleted)|
  {
    if k > 0 {
      ReportedSoFar(cfg, inputs, reports, k - 1, deleted);
      assert Init(reports[..k]) == reports[..k - 1] && Last(reports[..k]) == reports[k - 1];
      assert ReportExact(cfg, inputs, reports, k - 1);
      var from, to := Since(reports[..k - 1]), reports[k - 1].at;
      CutAt(cfg, inputs, from, to, deleted);
      TallyConserves(Between(cfg, inputs, from, to, deleted));
    }
  }

  /** Nothing is lost: what was reported and what waits in the lists add up to the entries received. */
  lemma CountsConserved(cfg: Config, inputs: seq<Input>, deleted: bool)
    requires |Entries(cfg, inputs, deleted)| < WRAP && Run(cfg, inputs).status == Running
    ensures var s := Run(cfg, inputs);
            Reported(s.reports, deleted) + Total(if deleted then s.deleted else s.updated) == |Entries(cfg, inputs, deleted)|
  {
    var s := Run(cfg, inputs);
    var since := Since(s.reports);
    RunAccounted(cfg, inputs);
    ReportedSoFar(cfg, inputs, s.reports, |s.reports|, deleted);
    assert s.reports[..|s.reports|] == s.reports && inputs[..|inputs|] == inputs;
    CutAt(cfg, inputs, since, |inputs|, deleted);
    TallyConserves(Between(cfg, inputs, since, |inputs|, deleted));
  }

  // ---------------------------------------------------------------- the loop itself

  class Subscription {
    const cfg: Config
    var updatedList: Counts
    var deletedList: Counts
    var timerExpired: seq<bool>
    var status: Status
    ghost var reports: seq<Report>
    ghost var taken: nat

    constructor (cfg: Config)
      ensures this.cfg == cfg && State() == START
    {
      this.cfg := cfg;
      updatedList, deletedList, timerExpired, status := map[], map[], [], Running;
      reports, taken := [], 0;
    }

    ghost function State(): Loop
      reads this
    {
      Loop(updatedList, deletedList, timerExpired, status, reports, taken)
    }

    static method CountPaths(list: Counts, paths: seq<string>) returns (c: Counts)
      ensures c == AddAll(list, paths)
    {
      c := list;
      for i := 0 to |paths|
        invariant c == AddAll(list, paths[..i])
      {
        assert Init(paths[..i + 1]) == paths[..i];
        var duplicates := 1;
        if paths[i] in c {
          duplicates := (c[paths[i]] + 1) % WRAP;
        }
        c := c[paths[i] := duplicates];
      }
      assert paths[..|paths|] == paths;
    }

    /** telemetryUpdate, and what the loop does with its answer. */
    method Update(sent: bool)
      modifies this
      ensures State() == Send(old(State()), sent)
    {
      reports := reports + [Report(taken, updatedList, deletedList)];
      if sent {
        updatedList, deletedList := map[], map[];
      } else {
        status := Quit;
      }
    }

    method PutTick(heartbeat: bool)
      modifies this
      ensures State() == Tick(old(State()), heartbeat)
    {
      if |timerExpired| < CAPACITY {
        timerExpired := timerExpired + [heartbeat];
      } else {
        status := Blocked;
      }
    }

    method Select(input: Input)
      requires status == Running
      modifies this
      ensures State() == Step(cfg, old(State()), input)
    {
      taken := taken + 1;
      match input {
        case Arrived(event, sent) =>
          if cfg.mode == OnChange || cfg.mode == Sample {
            updatedList := CountPaths(updatedList, event.updated);
            deletedList := CountPaths(deletedList, event.deleted);
            if cfg.mode == OnChange {
              Update(sent);
            }
          }
        case SamplingTick => PutTick(false);
        case HeartbeatTick => PutTick(true);
        case Expired(sent) =>
          if timerExpired != [] {
            var sendUpdate := timerExpired[0];
            timerExpired := timerExpired[1..];
            if !sendUpdate {
              if !cfg.suppressRedundant || updatedList != map[] || deletedList != map[] {
                sendUpdate := true;
              }
            }
            if sendUpdate {
              Update(sent);
            }
          }
        case Closed => status := Quit;
      }
    }

    method RunLoop(inputs: seq<Input>)
      requires State() == START
      modifies this
      ensures State() == Run(cfg, inputs)
    {
      var i := 0;
      while i < |inputs| && status == Running
        invariant i <= |inputs| && State() == Run(cfg, inputs[..i])
      {
        assert Init(inputs[..i + 1]) == inputs[..i];
        Select(inputs[i]);
        i := i + 1;
      }
      StoppedStays(cfg, inputs, i);
    }
  }

  lemma {:induction false} StoppedStays(cfg: Config, inputs: seq<Input>, i: nat)
    requires i <= |inputs| && (i < |inputs| ==> Run(cfg, inputs[..i]).status != Running)
    ensures Run(cfg, inputs) == Run(cfg, inputs[..i])
    decreases |inputs| - i
  {
    if i == |inputs| {
      assert inputs[..i] == inputs;
    } else {
      assert Init(inputs[..i + 1]) == inputs[..i];
      StoppedStays(cfg, inputs, i + 1);
    }
  }
}
