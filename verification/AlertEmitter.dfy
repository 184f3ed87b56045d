/** Alert deduplication with summaries of what was suppressed. */
module AlertEmitter {
  import opened Common
  import opened OrderedMaps

  datatype DedupState = DedupState(firstSeenAt: int, lastSentAt: int, suppressedCount: nat)

  datatype AlertDelivery = AlertDelivery(ok: bool, deduped: bool, suppressedCount: Option<nat>)

  /** History: every alert handed to `emit`, every delivery attempt, every suppression, every summary. */
  datatype Event =
    | Emitted(key: string, at: int)
    | Attempted(key: string, at: int)
    | Suppressed(key: string, at: int)
    | Summarised(key: string, at: int, count: nat)

  datatype Emitter = Emitter(state: OrderedMap<string, DedupState>, log: seq<Event>)

  const PREFIX: string := "AlertSuppressed:"

  function SummaryKey(key: string): string { PREFIX + key }

  predicate IsSummaryKey(key: string) { |PREFIX| <= |key| && key[..|PREFIX|] == PREFIX }

  predicate TooSoon(e: Emitter, window: int, key: string, now: int) {
    key in e.state.vals && now - e.state.vals[key].lastSentAt < window
  }

  function EmitStep(e: Emitter, window: int, key: string, now: int): (r: Emitter)
    requires e.state.Valid()
    ensures r.state.Valid()
  {
    var log := e.log + [Emitted(key, now)];
    if TooSoon(e, window, key, now) then
      var current := e.state.vals[key];
      Emitter(e.state.Set(key, current.(suppressedCount := current.suppressedCount + 1)), log + [Suppressed(key, now)])
    else if key !in e.state.vals then
      Emitter(e.state.Set(key, DedupState(now, now, 0)), log + [Attempted(key, now)])
    else
      Emitter(e.state.Set(key, e.state.vals[key].(lastSentAt := now)), log + [Attempted(key, now)])
  }

  predicate Due(e: Emitter, window: int, key: string, now: int) {
    key in e.state.vals && e.state.vals[key].suppressedCount > 0 && now - e.state.vals[key].lastSentAt >= window
  }

  /** One round of a flush. Between rounds the flush waits for the delivery, and other emits may come in. */
  function FlushKey(e: Emitter, window: int, key: string, now: int): (r: Emitter)
    requires e.state.Valid()
    ensures r.state.Valid()
  {
    if !Due(e, window, key, now) then e
    else
      var snapshot := e.state.vals[key];
      var cleared := Emitter(e.state.Set(key, snapshot.(suppressedCount := 0, lastSentAt := now)),
                             e.log + [Summarised(key, now, snapshot.suppressedCount)]);
      EmitStep(cleared, window, SummaryKey(key), now)
  }

  function FlushKeys(e: Emitter, window: int, keys: seq<string>, now: int): (r: Emitter)
    requires e.state.Valid()
    ensures r.state.Valid()
  {
    if keys == [] then e
    else FlushKey(FlushKeys(e, window, keys[..|keys| - 1], now), window, keys[|keys| - 1], now)
  }

  class AlertEmitter {
    const dedupeWindowMs: int
    var state: OrderedMap<string, DedupState>
    ghost var log: seq<Event>

    ghost function Model(): Emitter
      reads this
    {
      Emitter(state, log)
    }

    constructor (dedupeWindowMs: int)
      ensures Model() == Emitter(Empty(), []) && this.dedupeWindowMs == dedupeWindowMs
    {
      this.dedupeWindowMs := dedupeWindowMs;
      state := Empty();
      log := [];
    }

    /** `delivered` tells whether the sender returned or threw. */
    method Emit(key: string, now: int, delivered: bool) returns (r: AlertDelivery)
      requires state.Valid()
      modifies this
      ensures state.Valid() && Model() == EmitStep(old(Model()), dedupeWindowMs, key, now)
      ensures r.deduped <==> TooSoon(old(Model()), dedupeWindowMs, key, now)
      ensures r.deduped ==> r.ok && key in state.vals && r.suppressedCount == Some(state.vals[key].suppressedCount)
      ensures !r.deduped ==> r.ok == delivered && r.suppressedCount == None
    {
      log := log + [Emitted(key, now)];
      if key in state.vals && now - state.vals[key].lastSentAt < dedupeWindowMs {
        var current := state.vals[key];
        current := current.(suppressedCount := current.suppressedCount + 1);
        state := state.Set(key, current);
        log := log + [Suppressed(key, now)];
        return AlertDelivery(true, true, Some(current.suppressedCount));
      }
      if key !in state.vals {
        state := state.Set(key, DedupState(now, now, 0));
      } else {
        state := state.Set(key, state.vals[key].(lastSentAt := now));
      }
      log := log + [Attempted(key, now)];
      return AlertDelivery(delivered, false, None);
    }

    method FlushSuppressed(now: int, deliver: string -> bool)
      requires state.Valid()
      modifies this
      ensures state.Valid() && Model() == FlushKeys(old(Model()), dedupeWindowMs, old(state.keys), now)
      // every key that is due is cleared and summarised, and the record of any other stays as it was
      ensures forall key :: !IsSummaryKey(key) ==> Flushed(old(Model()), Model(), dedupeWindowMs, key, now)
    {
      FlushReaches(Model(), dedupeWindowMs, now);
      hide EmitStep, FlushKeys, SummaryKey, Flushed;
      var keys := state.keys;
      ghost var before := Model();
      NothingFlushed(before, dedupeWindowMs, keys, now);
      for i := 0 to |keys|
        invariant state.Valid() && Model() == FlushKeys(before, dedupeWindowMs, keys[..i], now)
      {
        var key := keys[i];
        OneMoreFlushed(before, dedupeWindowMs, keys, i, now);
        if key !in state.vals { continue; }
        var snapshot := state.vals[key];
        if snapshot.suppressedCount <= 0 { continue; }
        if now - snapshot.lastSentAt < dedupeWindowMs { continue; }

        var count := snapshot.suppressedCount;
        snapshot := snapshot.(suppressedCount := 0, lastSentAt := now);
        state := state.Set(key, snapshot);
        log := log + [Summarised(key, now, count)];
        var _ := Emit(SummaryKey(key), now, deliver(key));
      }
      assert keys[..|keys|] == keys;
    }
  }

  /** What a flush at `now` does about `key`: it owns up to what is pending once the window has passed. */
  ghost predicate Flushed(before: Emitter, after: Emitter, window: int, key: string, now: int) {
    if key in before.state.vals && before.state.vals[key].suppressedCount > 0
       && now - before.state.vals[key].lastSentAt >= window
    then
      var d := before.state.vals[key];
      && Look(after, key) == Some(DedupState(d.firstSeenAt, now, 0))
      && Summarised(key, now, d.suppressedCount) in after.log
    else Look(after, key) == Look(before, key)
  }

  lemma OtherFlush(e: Emitter, window: int, k: string, now: int, key: string)
    requires e.state.Valid() && !IsSummaryKey(key)
    ensures k != key ==> Look(FlushKey(e, window, k, now), key) == Look(e, key)
    ensures k == key ==> Flushed(e, FlushKey(e, window, k, now), window, key, now)
    ensures e.log <= FlushKey(e, window, k, now).log
  {
    SummaryKeyShape(k);
    if Due(e, window, k, now) {
      var d := e.state.vals[k];
      var cleared := Emitter(e.state.Set(k, d.(suppressedCount := 0, lastSentAt := now)),
                             e.log + [Summarised(k, now, d.suppressedCount)]);
      EmitEffect(cleared, window, SummaryKey(k), now, key);
    }
  }

  lemma {:induction false} FlushReachesUpTo(e: Emitter, window: int, keys: seq<string>, now: int, key: string)
    requires e.state.Valid() && NoDup(keys) && !IsSummaryKey(key)
    ensures e.log <= FlushKeys(e, window, keys, now).log
    ensures key in keys ==> Flushed(e, FlushKeys(e, window, keys, now), window, key, now)
    ensures key !in keys ==> Look(FlushKeys(e, window, keys, now), key) == Look(e, key)
  {
    if keys != [] {
      var front, last := keys[..|keys| - 1], keys[|keys| - 1];
      FlushReachesUpTo(e, window, front, now, key);
      OtherFlush(FlushKeys(e, window, front, now), window, last, now, key);
      assert keys == front + [last];
      hide FlushKey;
    }
  }

  lemma FlushReaches(e: Emitter, window: int, now: int)
    requires e.state.Valid()
    ensures forall key :: !IsSummaryKey(key) ==>
              Flushed(e, FlushKeys(e, window, e.state.keys, now), window, key, now)
  {
    forall key | !IsSummaryKey(key) ensures Flushed(e, FlushKeys(e, window, e.state.keys, now), window, key, now) {
      FlushReachesUpTo(e, window, e.state.keys, now, key);
      assert key in e.state.vals <==> key in Elems(e.state.keys);
    }
  }

  lemma NothingFlushed(e: Emitter, window: int, keys: seq<string>, now: int)
    requires e.state.Valid()
    ensures FlushKeys(e, window, keys[..0], now) == e
  {
  }

  lemma OneMoreFlushed(e: Emitter, window: int, keys: seq<string>, i: nat, now: int)
    requires e.state.Valid() && i < |keys|
    ensures FlushKeys(e, window, keys[..i + 1], now) ==
        FlushKey(FlushKeys(e, window, keys[..i], now), window, keys[i], now)
  {
    assert keys[..i + 1][..i] == keys[..i];
  }

  // ---- whole runs: emits and flush rounds in any order, at any clock values ----

  datatype Op = EmitOp(key: string, now: int) | FlushOp(key: string, now: int)

  function Run(ops: seq<Op>, window: int): (e: Emitter)
    ensures e.state.Valid()
  {
    if ops == [] then Emitter(Empty(), [])
    else
      var before := Run(ops[..|ops| - 1], window);
      match ops[|ops| - 1]
      case EmitOp(key, now) => EmitStep(before, window, key, now)
      case FlushOp(key, now) => FlushKey(before, window, key, now)
  }

  function Emits(log: seq<Event>, key: string): nat {
    if log == [] then 0
    else Emits(log[..|log| - 1], key) + (var ev := log[|log| - 1]; if ev.Emitted? && ev.key == key then 1 else 0)
  }

  function Attempts(log: seq<Event>, key: string): nat {
    if log == [] then 0
    else Attempts(log[..|log| - 1], key) + (var ev := log[|log| - 1]; if ev.Attempted? && ev.key == key then 1 else 0)
  }

  /** The suppressed alerts that summaries have owned up to. */
  function Reported(log: seq<Event>, key: string): nat {
    if log == [] then 0
    else
      var ev := log[|log| - 1];
      Reported(log[..|log| - 1], key) + (if ev.Summarised? && ev.key == key then ev.count else 0)
  }

  function Pending(e: Emitter, key: string): nat {
    if key in e.state.vals then e.state.vals[key].suppressedCount else 0
  }

  ghost predicate Conserved(e: Emitter, key: string) {
    Emits(e.log, key) == Attempts(e.log, key) + Reported(e.log, key) + Pending(e, key)
  }

  lemma LogOne(log: seq<Event>, ev: Event, key: string)
    ensures Emits(log + [ev], key) == Emits(log, key) + (if ev.Emitted? && ev.key == key then 1 else 0)
    ensures Attempts(log + [ev], key) == Attempts(log, key) + (if ev.Attempted? && ev.key == key then 1 else 0)
    ensures Reported(log + [ev], key) == Reported(log, key) + (if ev.Summarised? && ev.key == key then ev.count else 0)
  {
    assert (log + [ev])[..|log|] == log;
  }

  function Look(e: Emitter, key: string): Option<DedupState> {
    if key in e.state.vals then Some(e.state.vals[key]) else None
  }

  /** A record after one more alert: fresh, one more suppressed, or sent again. */
  function Bumped(d: Option<DedupState>, window: int, now: int): DedupState {
    match d
    case None => DedupState(now, now, 0)
    case Some(s) =>
      if now - s.lastSentAt < window then s.(suppressedCount := s.suppressedCount + 1) else s.(lastSentAt := now)
  }

  /** What an emit of `k` does to the record of any key, and to the log. */
  lemma EmitEffect(e: Emitter, window: int, k: string, now: int, key: string)
    requires e.state.Valid()
    ensures var r := EmitStep(e, window, k, now);
            && Look(r, key) == (if key == k then Some(Bumped(Look(e, k), window, now)) else Look(e, key))
            && r.log == e.log + [Emitted(k, now)]
                + [if TooSoon(e, window, k, now) then Suppressed(k, now) else Attempted(k, now)]
  {
  }

  lemma EmitConserves(e: Emitter, window: int, k: string, now: int, key: string)
    requires e.state.Valid() && Conserved(e, key)
    ensures Conserved(EmitStep(e, window, k, now), key)
  {
    LogOne(e.log, Emitted(k, now), key);
    EmitEffect(e, window, k, now, key);
    if TooSoon(e, window, k, now) {
      LogOne(e.log + [Emitted(k, now)], Suppressed(k, now), key);
    } else {
      LogOne(e.log + [Emitted(k, now)], Attempted(k, now), key);
    }
  }

  lemma FlushConserves(e: Emitter, window: int, k: string, now: int, key: string)
    requires e.state.Valid() && Conserved(e, key)
    ensures Conserved(FlushKey(e, window, k, now), key)
  {
    if Due(e, window, k, now) {
      var snapshot := e.state.vals[k];
      LogOne(e.log, Summarised(k, now, snapshot.suppressedCount), key);
      EmitConserves(Emitter(e.state.Set(k, snapshot.(suppressedCount := 0, lastSentAt := now)),
                            e.log + [Summarised(k, now, snapshot.suppressedCount)]), window, SummaryKey(k), now, key);
    }
  }

  /** No alert is lost: each one was attempted, is in a reported count, or is still pending. */
  lemma {:induction false} AlertsAreConserved(ops: seq<Op>, window: int, key: string)
    ensures Conserved(Run(ops, window), key)
  {
    if ops != [] {
      var before := Run(ops[..|ops| - 1], window);
      AlertsAreConserved(ops[..|ops| - 1], window, key);
      match ops[|ops| - 1] {
        case EmitOp(k, now) => EmitConserves(before, window, k, now, key);
        case FlushOp(k, now) => FlushConserves(before, window, k, now, key);
      }
    }
  }

  // ---- the table of records says what the history says ----

  /** When something was last sent about `key`: an attempt, or the summary that owned up to its suppressed alerts. */
  function LastSend(log: seq<Event>, key: string): Option<int> {
    if log == [] then None
    else
      var ev := log[|log| - 1];
      if (ev.Attempted? || ev.Summarised?) && ev.key == key then Some(ev.at) else LastSend(log[..|log| - 1], key)
  }

  /** The alerts suppressed for `key` since its last summary. */
  function SuppressedSince(log: seq<Event>, key: string): nat {
    if log == [] then 0
    else
      var ev, front := log[|log| - 1], log[..|log| - 1];
      if ev.Summarised? && ev.key == key then 0
      else SuppressedSince(front, key) + (if ev.Suppressed? && ev.key == key then 1 else 0)
  }

  ghost predicate TellsHistory(e: Emitter, key: string) {
    match LastSend(e.log, key)
    case None => key !in e.state.vals && SuppressedSince(e.log, key) == 0
    case Some(at) =>
      && key in e.state.vals && e.state.vals[key].lastSentAt == at
      && e.state.vals[key].suppressedCount == SuppressedSince(e.log, key)
  }

  lemma HistoryOne(log: seq<Event>, ev: Event, key: string)
    ensures LastSend(log + [ev], key) ==
            if (ev.Attempted? || ev.Summarised?) && ev.key == key then Some(ev.at) else LastSend(log, key)
    ensures SuppressedSince(log + [ev], key) ==
            if ev.Summarised? && ev.key == key then 0
            else SuppressedSince(log, key) + (if ev.Suppressed? && ev.key == key then 1 else 0)
  {
    assert (log + [ev])[..|log|] == log;
  }

  lemma EmitTellsHistory(e: Emitter, window: int, k: string, now: int, key: string)
    requires e.state.Valid() && TellsHistory(e, key)
    ensures TellsHistory(EmitStep(e, window, k, now), key)
  {
    HistoryOne(e.log, Emitted(k, now), key);
    HistoryOne(e.log + [Emitted(k, now)], Suppressed(k, now), key);
    HistoryOne(e.log + [Emitted(k, now)], Attempted(k, now), key);
  }

  lemma FlushTellsHistory(e: Emitter, window: int, k: string, now: int, key: string)
    requires e.state.Valid() && TellsHistory(e, key)
    ensures TellsHistory(FlushKey(e, window, k, now), key)
  {
    if Due(e, window, k, now) {
      var snapshot := e.state.vals[k];
      HistoryOne(e.log, Summarised(k, now, snapshot.suppressedCount), key);
      var cleared := Emitter(e.state.Set(k, snapshot.(suppressedCount := 0, lastSentAt := now)),
                             e.log + [Summarised(k, now, snapshot.suppressedCount)]);
      assert TellsHistory(cleared, key);
      EmitTellsHistory(cleared, window, SummaryKey(k), now, key);
    }
  }

  lemma {:induction false} RunTellsHistory(ops: seq<Op>, window: int, key: string)
    ensures TellsHistory(Run(ops, window), key)
  {
    if ops != [] {
      var before := Run(ops[..|ops| - 1], window);
      RunTellsHistory(ops[..|ops| - 1], window, key);
      hide TellsHistory, EmitStep, FlushKey;
      match ops[|ops| - 1] {
        case EmitOp(k, now) => EmitTellsHistory(before, window, k, now, key);
        case FlushOp(k, now) => FlushTellsHistory(before, window, k, now, key);
      }
    }
  }

  /** After any run: an alert is suppressed exactly when something was sent about its key less than a window ago, and
      otherwise delivery is attempted; a flush sends a summary exactly when alerts were suppressed since the last one
      and the window has passed, and the summary owns up to all of them under a key of its own. */
  lemma HistoryDecides(ops: seq<Op>, window: int, key: string, now: int)
    ensures var e := Run(ops, window);
            && EmitStep(e, window, key, now).log == e.log + [Emitted(key, now)] +
                 (match LastSend(e.log, key)
                  case Some(at) => if now - at < window then [Suppressed(key, now)] else [Attempted(key, now)]
                  case None => [Attempted(key, now)])
            && (match LastSend(e.log, key)
                case Some(at) =>
                  if SuppressedSince(e.log, key) > 0 && now - at >= window
                  then e.log + [Summarised(key, now, SuppressedSince(e.log, key)),
                                Emitted("AlertSuppressed:" + key, now)] <= FlushKey(e, window, key, now).log
                  else FlushKey(e, window, key, now) == e
                case None => FlushKey(e, window, key, now) == e)
  {
    RunTellsHistory(ops, window, key);
    var e := Run(ops, window);
    hide Run, LastSend, SuppressedSince;
    EmitEffect(e, window, key, now, key);
    if Due(e, window, key, now) {
      var d := e.state.vals[key];
      var cleared := Emitter(e.state.Set(key, d.(suppressedCount := 0, lastSentAt := now)),
                             e.log + [Summarised(key, now, d.suppressedCount)]);
      EmitEffect(cleared, window, SummaryKey(key), now, key);
    }
  }

  // ---- spacing ----

  /** Every attempt so far was made no later than the key's last send. */
  ghost predicate Dated(e: Emitter) {
    forall n :: 0 <= n < |e.log| && e.log[n].Attempted? ==>
      e.log[n].key in e.state.vals && e.log[n].at <= e.state.vals[e.log[n].key].lastSentAt
  }

  ghost predicate Spaced(log: seq<Event>, window: int) {
    forall m, n :: 0 <= m < n < |log| && log[m].Attempted? && log[n].Attempted? && log[m].key == log[n].key ==>
      log[n].at - log[m].at >= window
  }

  lemma EmitKeepsSpaced(e: Emitter, window: int, k: string, now: int)
    requires e.state.Valid() && window >= 0 && Dated(e) && Spaced(e.log, window)
    ensures Dated(EmitStep(e, window, k, now)) && Spaced(EmitStep(e, window, k, now).log, window)
  {
    var r := EmitStep(e, window, k, now);
    assert |r.log| == |e.log| + 2;
    assert forall n :: 0 <= n < |e.log| ==> r.log[n] == e.log[n];
  }

  lemma FlushKeepsSpaced(e: Emitter, window: int, k: string, now: int)
    requires e.state.Valid() && window >= 0 && Dated(e) && Spaced(e.log, window)
    ensures Dated(FlushKey(e, window, k, now)) && Spaced(FlushKey(e, window, k, now).log, window)
  {
    if Due(e, window, k, now) {
      var snapshot := e.state.vals[k];
      var cleared := Emitter(e.state.Set(k, snapshot.(suppressedCount := 0, lastSentAt := now)),
                             e.log + [Summarised(k, now, snapshot.suppressedCount)]);
      assert forall n :: 0 <= n < |e.log| ==> cleared.log[n] == e.log[n];
      assert Dated(cleared) && Spaced(cleared.log, window);
      EmitKeepsSpaced(cleared, window, SummaryKey(k), now);
    }
  }

  lemma {:induction false} RunIsSpaced(ops: seq<Op>, window: int)
    requires window >= 0
    ensures Dated(Run(ops, window)) && Spaced(Run(ops, window).log, window)
  {
    if ops != [] {
      var before := Run(ops[..|ops| - 1], window);
      RunIsSpaced(ops[..|ops| - 1], window);
      match ops[|ops| - 1] {
        case EmitOp(k, now) => EmitKeepsSpaced(before, window, k, now);
        case FlushOp(k, now) => FlushKeepsSpaced(before, window, k, now);
      }
    }
  }

  /** A flush that sends the first summary of `k`. */
  lemma FirstFlushEffect(e: Emitter, window: int, k: string, now: int, d: DedupState)
    requires e.state.Valid() && Look(e, k) == Some(d) && d.suppressedCount > 0 && now - d.lastSentAt >= window
    requires Look(e, SummaryKey(k)) == None
    ensures var r := FlushKey(e, window, k, now);
            && Look(r, k) == Some(DedupState(d.firstSeenAt, now, 0))
            && Look(r, SummaryKey(k)) == Some(DedupState(now, now, 0))
            && |r.log| == |e.log| + 3 && r.log[..|e.log|] == e.log
  {
    SummaryKeyShape(k);
    var cleared := Emitter(e.state.Set(k, d.(suppressedCount := 0, lastSentAt := now)),
                           e.log + [Summarised(k, now, d.suppressedCount)]);
    EmitEffect(cleared, window, SummaryKey(k), now, k);
    EmitEffect(cleared, window, SummaryKey(k), now, SummaryKey(k));
  }

  lemma EmitOpEffect(ops: seq<Op>, n: nat, window: int, k: string, now: int, key: string)
    requires n < |ops| && ops[n] == EmitOp(k, now)
    ensures Look(Run(ops[..n + 1], window), key) ==
            (if key == k then Some(Bumped(Look(Run(ops[..n], window), k), window, now))
             else Look(Run(ops[..n], window), key))
    ensures |Run(ops[..n + 1], window).log| == |Run(ops[..n], window).log| + 2
    ensures Run(ops[..n + 1], window).log[..|Run(ops[..n], window).log|] == Run(ops[..n], window).log
  {
    RunOne(ops, n, window);
    EmitEffect(Run(ops[..n], window), window, k, now, key);
  }

  function CrowdedRun(window: int): seq<Op> {
    [EmitOp("a", 0), EmitOp("a", window - 1), FlushOp("a", window), EmitOp("a", 2 * window)]
  }

  /** The first three steps of a run under a negative window: sent at 0, suppressed once, flushed. */
  lemma SentSuppressedFlushed(ops: seq<Op>, window: int, at: int)
    requires window < 0 && at >= window && |ops| >= 3
    requires ops[0] == EmitOp("a", 0) && ops[1] == EmitOp("a", window - 1) && ops[2] == FlushOp("a", at)
    ensures var e := Run(ops[..3], window);
            && Look(e, "a") == Some(DedupState(0, at, 0))
            && Look(e, SummaryKey("a")) == Some(DedupState(at, at, 0))
            && |e.log| >= 2 && e.log[1] == Attempted("a", 0)
  {
    SummaryKeyShape("a");
    assert ops[..0] == [];
    RunOne(ops, 0, window);
    assert Run(ops[..1], window).log[1] == Attempted("a", 0);
    EmitOpEffect(ops, 0, window, "a", 0, "a");
    EmitOpEffect(ops, 0, window, "a", 0, SummaryKey("a"));
    EmitOpEffect(ops, 1, window, "a", window - 1, "a");
    EmitOpEffect(ops, 1, window, "a", window - 1, SummaryKey("a"));
    var first, second := Run(ops[..1], window), Run(ops[..2], window);
    assert second.log[..|first.log|][1] == first.log[1];
    RunOne(ops, 2, window);
    FirstFlushEffect(second, window, "a", at, DedupState(0, 0, 1));
    assert Run(ops[..3], window).log[..|second.log|][1] == second.log[1];
  }

  /** Under a negative window a flush between two attempts lets them come closer than the window. */
  lemma NegativeWindowCrowdsAttempts(window: int)
    requires window < 0
    ensures !Spaced(Run(CrowdedRun(window), window).log, window)
  {
    var ops := CrowdedRun(window);
    SentSuppressedFlushed(ops, window, window);
    RunOne(ops, 3, window);
    assert ops[..4] == ops;
    EmitEffect(Run(ops[..3], window), window, "a", 2 * window, "a");
    var log := Run(ops, window).log;
    assert log[1] == Attempted("a", 0) && log[|log| - 1] == Attempted("a", 2 * window);
  }

  /** Attempts for one key are at least the window apart, at any clock values, exactly when the window is not
      negative. */
  lemma AttemptsAreSpacedIff(window: int)
    ensures window >= 0 <==> forall ops: seq<Op> :: Spaced(Run(ops, window).log, window)
  {
    if window >= 0 {
      forall ops: seq<Op> ensures Spaced(Run(ops, window).log, window) { RunIsSpaced(ops, window); }
    } else {
      NegativeWindowCrowdsAttempts(window);
    }
  }

  // ---- summaries ----

  /** A summary key was last sent no later than the key it speaks for, and has nothing pending. */
  ghost predicate SummariesFollow(e: Emitter) {
    forall s :: s in e.state.vals && IsSummaryKey(s) ==>
      && e.state.vals[s].suppressedCount == 0
      && s[|PREFIX|..] in e.state.vals
      && e.state.vals[s].lastSentAt <= e.state.vals[s[|PREFIX|..]].lastSentAt
  }

  ghost predicate SummarySuppressed(log: seq<Event>) {
    exists n :: 0 <= n < |log| && log[n].Suppressed? && IsSummaryKey(log[n].key)
  }

  lemma SummaryKeyShape(key: string)
    ensures IsSummaryKey(SummaryKey(key)) && SummaryKey(key)[|PREFIX|..] == key && SummaryKey(key) != key
  {
    assert |SummaryKey(key)| == |PREFIX| + |key|;
  }

  lemma CallerEmitKeepsSummaries(e: Emitter, window: int, k: string, now: int)
    requires e.state.Valid() && window >= 0 && SummariesFollow(e) && !SummarySuppressed(e.log) && !IsSummaryKey(k)
    ensures var r := EmitStep(e, window, k, now); SummariesFollow(r) && !SummarySuppressed(r.log)
  {
    var r := EmitStep(e, window, k, now);
    assert forall n :: 0 <= n < |e.log| ==> r.log[n] == e.log[n];
  }

  lemma FlushKeepsSummaries(e: Emitter, window: int, k: string, now: int)
    requires e.state.Valid() && window >= 0 && SummariesFollow(e) && !SummarySuppressed(e.log)
    ensures var r := FlushKey(e, window, k, now); SummariesFollow(r) && !SummarySuppressed(r.log)
  {
    if Due(e, window, k, now) {
      var r := FlushKey(e, window, k, now);
      SummaryKeyShape(k);
      assert !IsSummaryKey(k);
      assert forall n :: 0 <= n < |e.log| ==> r.log[n] == e.log[n];
    }
  }

  /** The callers keep away from the prefix the emitter uses for its own summaries. */
  ghost predicate CallersAvoidPrefix(ops: seq<Op>) {
    forall n :: 0 <= n < |ops| && ops[n].EmitOp? ==> !IsSummaryKey(ops[n].key)
  }

  lemma {:induction false} SummariesGetThrough(ops: seq<Op>, window: int)
    requires window >= 0 && CallersAvoidPrefix(ops)
    ensures SummariesFollow(Run(ops, window)) && !SummarySuppressed(Run(ops, window).log)
  {
    if ops != [] {
      var front := ops[..|ops| - 1];
      SummariesGetThrough(front, window);
      match ops[|ops| - 1] {
        case EmitOp(k, now) => CallerEmitKeepsSummaries(Run(front, window), window, k, now);
        case FlushOp(k, now) => FlushKeepsSummaries(Run(front, window), window, k, now);
      }
    }
  }

  lemma RunOne(ops: seq<Op>, n: nat, window: int)
    requires n < |ops|
    ensures Run(ops[..n + 1], window) ==
            (match ops[n]
             case EmitOp(key, now) => EmitStep(Run(ops[..n], window), window, key, now)
             case FlushOp(key, now) => FlushKey(Run(ops[..n], window), window, key, now))
  {
    assert ops[..n + 1][..n] == ops[..n];
  }

  /** A run that loses a summary under a negative window. */
  function NegativeRun(window: int): seq<Op> {
    [EmitOp("a", 0), EmitOp("a", window - 1), FlushOp("a", 0),
     EmitOp("a", window - 1), EmitOp("a", window), FlushOp("a", 2 * window)]
  }

  lemma NegativeWindowLosesSummary(window: int)
    requires window < 0
    ensures CallersAvoidPrefix(NegativeRun(window)) && SummarySuppressed(Run(NegativeRun(window), window).log)
  {
    SummaryLost(NegativeRun(window), window);
    assert !IsSummaryKey("a");
  }

  lemma SummaryLost(ops: seq<Op>, window: int)
    requires window < 0 && |ops| == 6
    requires ops[0] == EmitOp("a", 0) && ops[1] == EmitOp("a", window - 1) && ops[2] == FlushOp("a", 0)
    requires ops[3] == EmitOp("a", window - 1) && ops[4] == EmitOp("a", window) && ops[5] == FlushOp("a", 2 * window)
    ensures SummarySuppressed(Run(ops, window).log)
  {
    var s := SummaryKey("a");
    SummaryKeyShape("a");
    SentSuppressedFlushed(ops, window, 0);
    var third, fourth := Run(ops[..3], window), Run(ops[..4], window);
    assert Bumped(Look(third, "a"), window, window - 1) == DedupState(0, 0, 1);
    assert Look(fourth, "a") == Some(DedupState(0, 0, 1)) by { EmitOpEffect(ops, 3, window, "a", window - 1, "a"); }
    assert Look(fourth, s) == Look(third, s) by { EmitOpEffect(ops, 3, window, "a", window - 1, s); }
    SummaryLostAtLast(ops, window);
  }

  lemma SummaryLostAtLast(ops: seq<Op>, window: int)
    requires window < 0 && |ops| == 6
    requires ops[4] == EmitOp("a", window) && ops[5] == FlushOp("a", 2 * window)
    requires Look(Run(ops[..4], window), "a") == Some(DedupState(0, 0, 1))
    requires Look(Run(ops[..4], window), SummaryKey("a")) == Some(DedupState(0, 0, 0))
    ensures SummarySuppressed(Run(ops, window).log)
  {
    SummaryKeyShape("a");
    EmitOpEffect(ops, 4, window, "a", window, "a");
    EmitOpEffect(ops, 4, window, "a", window, SummaryKey("a"));
    LateFlushIsLost(ops, 5, window, "a", 2 * window, DedupState(0, window, 1), DedupState(0, 0, 0));
    assert ops[..6] == ops;
  }

  /** A flush that is due for `k` while its summary key counts as sent too recently. */
  lemma LateFlushIsLost(ops: seq<Op>, n: nat, window: int, k: string, now: int, d: DedupState, s: DedupState)
    requires n < |ops| && ops[n] == FlushOp(k, now)
    requires var e := Run(ops[..n], window);
             && Look(e, k) == Some(d) && d.suppressedCount > 0 && now - d.lastSentAt >= window
             && Look(e, SummaryKey(k)) == Some(s) && now - s.lastSentAt < window
    ensures SummarySuppressed(Run(ops[..n + 1], window).log)
  {
    var e := Run(ops[..n], window);
    SummaryKeyShape(k);
    RunOne(ops, n, window);
    var cleared := Emitter(e.state.Set(k, d.(suppressedCount := 0, lastSentAt := now)),
                           e.log + [Summarised(k, now, d.suppressedCount)]);
    EmitEffect(cleared, window, SummaryKey(k), now, SummaryKey(k));
    var log := Run(ops[..n + 1], window).log;
    assert log[|log| - 1] == Suppressed(SummaryKey(k), now);
  }

  /** No summary is ever suppressed, in any run, exactly when the window is not negative. */
  lemma SummariesGetThroughIff(window: int)
    ensures window >= 0 <==>
            forall ops: seq<Op> :: CallersAvoidPrefix(ops) ==> !SummarySuppressed(Run(ops, window).log)
  {
    if window >= 0 {
      forall ops: seq<Op> | CallersAvoidPrefix(ops) ensures !SummarySuppressed(Run(ops, window).log) {
        SummariesGetThrough(ops, window);
      }
    } else {
      NegativeWindowLosesSummary(window);
    }
  }
}
