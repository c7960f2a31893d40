/** Speech recognition (src/lib/recognition.ts): `RecognitionSvc.listen`
    decides when the user has finished a spoken turn. The browser's
    recogniser is replaced by explicit events (a batch of results, an error,
    the end of recognition, the safety timer), each carrying the instant
    `now` at which it happens; the UI callbacks and the recogniser's
    `start`/`stop` calls are recorded in a log. */
module Recognition {
  import opened Wrappers
  import opened Text

  // ---------------------------------------------------------------------------
  // Options

  /** What a caller may pass to `listen`; an absent field takes its default. */
  datatype ListenOptions = ListenOptions(
    lang: Option<string>,
    minDurationMs: Option<int>,
    endSilenceMs: Option<int>,
    minChars: Option<int>,
    maxTotalMs: Option<int>,
    silenceChecks: Option<int>)

  /** `listen()` called without options. */
  const NoOptions := ListenOptions(None, None, None, None, None, None)

  /** The options after defaults are filled in. */
  datatype Settings = Settings(
    lang: string,
    minDurationMs: int,
    endSilenceMs: int,
    minChars: int,
    maxTotalMs: int,
    silenceChecks: int)

  /** The destructuring defaults of `listen`. */
  function Resolve(o: ListenOptions): Settings {
    Settings(
      o.lang.GetOr("es-AR"),
      o.minDurationMs.GetOr(2500),
      o.endSilenceMs.GetOr(1500),
      o.minChars.GetOr(18),
      o.maxTotalMs.GetOr(25000),
      o.silenceChecks.GetOr(2))
  }

  /** Without options a turn needs 2.5 s of listening, 1.5 s of silence
      checked twice and 18 characters, and is cut after 25 s. */
  lemma ResolveDefaults()
    ensures Resolve(NoOptions) == Settings("es-AR", 2500, 1500, 18, 25000, 2)
  {
  }

  /** A given option always wins over its default. */
  lemma ResolveKeepsGiven(o: ListenOptions)
    ensures o.lang.Some? ==> Resolve(o).lang == o.lang.value
    ensures o.minDurationMs.Some? ==> Resolve(o).minDurationMs == o.minDurationMs.value
    ensures o.endSilenceMs.Some? ==> Resolve(o).endSilenceMs == o.endSilenceMs.value
    ensures o.minChars.Some? ==> Resolve(o).minChars == o.minChars.value
    ensures o.maxTotalMs.Some? ==> Resolve(o).maxTotalMs == o.maxTotalMs.value
    ensures o.silenceChecks.Some? ==> Resolve(o).silenceChecks == o.silenceChecks.value
  {
  }

  function Max(a: int, b: int): int {
    if a < b then b else a
  }

  /** Without recognition support `listen` only waits this long, then resolves. */
  function FallbackDelay(s: Settings): (ms: int)
    ensures ms >= 1200 && ms >= s.minDurationMs
    ensures ms == 1200 || ms == s.minDurationMs
  {
    Max(s.minDurationMs, 1200)
  }

  // ---------------------------------------------------------------------------
  // What the outside world sees

  /** A UI callback invocation, or a call on a recogniser (identified by
      the number of recognisers created before it). */
  datatype Event =
    | Partial(text: string)
    | Final(text: string)
    | RecStart(rec: nat)
    | RecStop(rec: nat)

  /** A call of an optional callback: nothing when none is registered. */
  function Emit(registered: bool, e: Event): seq<Event> {
    if registered then [e] else []
  }

  /** What `finish` does when it acts: stop the recogniser, clear the
      partial text, deliver the trimmed final text. */
  function FinishEvents(rec: nat, partialCb: bool, finalCb: bool, finals: string): seq<Event> {
    [RecStop(rec)] + Emit(partialCb, Partial("")) + Emit(finalCb, Final(Trim(finals)))
  }

  // ---------------------------------------------------------------------------
  // Result events, as a specification

  /** One entry of `ev.results`: final or interim, with the transcript of its
      first alternative when there is one. */
  datatype ResultItem = ResultItem(isFinal: bool, transcript: Option<string>)

  /** `res[0]?.transcript || ''`. */
  function TranscriptOf(r: ResultItem): string {
    r.transcript.GetOr("")
  }

  /** `acc += (acc ? ' ' : '') + txt`. */
  function Extend(acc: string, txt: string): string {
    acc + (if acc != "" then " " else "") + txt
  }

  /** The closure variables of one `listen` that result events update. */
  datatype Turn = Turn(finals: string, interim: string, lastVoiceAt: int, okSilenceCount: nat)

  /** The loop body of `onresult` for one result at instant `now`. */
  function StepResult(t: Turn, r: ResultItem, now: int): Turn {
    if r.isFinal then t.(finals := Extend(t.finals, TranscriptOf(r)), lastVoiceAt := now, okSilenceCount := 0)
    else t.(interim := Extend(t.interim, TranscriptOf(r)))
  }

  /** The callback the loop body calls, given the turn after the step. */
  function StepEvent(after: Turn, r: ResultItem, partialCb: bool, finalCb: bool): seq<Event> {
    if r.isFinal then Emit(finalCb, Final(Trim(after.finals)))
    else Emit(partialCb, Partial(Trim(after.finals + " " + after.interim)))
  }

  /** The turn after the loop has gone over `rs`, in order. */
  function ApplyResults(t: Turn, rs: seq<ResultItem>, now: int): Turn
    decreases |rs|
  {
    if |rs| == 0 then t
    else StepResult(ApplyResults(t, rs[..|rs| - 1], now), rs[|rs| - 1], now)
  }

  /** The callbacks the loop calls while going over `rs`, in order. */
  function ResultEvents(t: Turn, rs: seq<ResultItem>, now: int, partialCb: bool, finalCb: bool): seq<Event>
    decreases |rs|
  {
    if |rs| == 0 then []
    else
      var init := rs[..|rs| - 1];
      var after := ApplyResults(t, init, now);
      ResultEvents(t, init, now, partialCb, finalCb)
        + StepEvent(StepResult(after, rs[|rs| - 1], now), rs[|rs| - 1], partialCb, finalCb)
  }

  /** The transcripts of the final results of `rs`, in order. */
  function FinalTexts(rs: seq<ResultItem>): seq<string>
    decreases |rs|
  {
    if rs == [] then []
    else FinalTexts(rs[..|rs| - 1]) + (if rs[|rs| - 1].isFinal then [TranscriptOf(rs[|rs| - 1])] else [])
  }

  /** The transcripts of the interim results of `rs`, in order. */
  function InterimTexts(rs: seq<ResultItem>): seq<string>
    decreases |rs|
  {
    if rs == [] then []
    else InterimTexts(rs[..|rs| - 1]) + (if rs[|rs| - 1].isFinal then [] else [TranscriptOf(rs[|rs| - 1])])
  }

  /** Some result of `rs` is final. */
  predicate HasFinal(rs: seq<ResultItem>)
    decreases |rs|
  {
    rs != [] && (rs[|rs| - 1].isFinal || HasFinal(rs[..|rs| - 1]))
  }

  /** `Extend` applied to each text of `ts` in turn. */
  function ExtendAll(acc: string, ts: seq<string>): string
    decreases |ts|
  {
    if ts == [] then acc else Extend(ExtendAll(acc, ts[..|ts| - 1]), ts[|ts| - 1])
  }

  /** Going over a batch result by result is the same as sorting it into
      final and interim transcripts first: `finals` gains the final
      transcripts and `interim` the interim ones, each in arrival order. */
  lemma {:induction false} ApplyResultsByKind(t: Turn, rs: seq<ResultItem>, now: int)
    ensures ApplyResults(t, rs, now).finals == ExtendAll(t.finals, FinalTexts(rs))
    ensures ApplyResults(t, rs, now).interim == ExtendAll(t.interim, InterimTexts(rs))
    decreases |rs|
  {
    if rs != [] {
      var init := rs[..|rs| - 1];
      var last := rs[|rs| - 1];
      ApplyResultsByKind(t, init, now);
      if last.isFinal {
        assert InterimTexts(rs) == InterimTexts(init) + [];
        assert InterimTexts(init) + [] == InterimTexts(init);
        ExtendAllSnoc(t.finals, FinalTexts(init), TranscriptOf(last));
      } else {
        assert FinalTexts(rs) == FinalTexts(init) + [];
        assert FinalTexts(init) + [] == FinalTexts(init);
        ExtendAllSnoc(t.interim, InterimTexts(init), TranscriptOf(last));
      }
    }
  }

  /** A final result in the batch marks `now` as the last voice and resets
      the silence counter; a batch without one leaves both alone. */
  lemma {:induction false} ApplyResultsVoice(t: Turn, rs: seq<ResultItem>, now: int)
    ensures HasFinal(rs) ==> ApplyResults(t, rs, now).lastVoiceAt == now
    ensures HasFinal(rs) ==> ApplyResults(t, rs, now).okSilenceCount == 0
    ensures !HasFinal(rs) ==> ApplyResults(t, rs, now).lastVoiceAt == t.lastVoiceAt
    ensures !HasFinal(rs) ==> ApplyResults(t, rs, now).okSilenceCount == t.okSilenceCount
    decreases |rs|
  {
    if rs != [] {
      ApplyResultsVoice(t, rs[..|rs| - 1], now);
    }
  }

  /** One more result: one more loop step, and its callback at the end. */
  lemma ResultsSnoc(t: Turn, rs: seq<ResultItem>, i: nat, now: int, partialCb: bool, finalCb: bool)
    requires i < |rs|
    ensures ApplyResults(t, rs[..i + 1], now) == StepResult(ApplyResults(t, rs[..i], now), rs[i], now)
    ensures ResultEvents(t, rs[..i + 1], now, partialCb, finalCb)
      == ResultEvents(t, rs[..i], now, partialCb, finalCb)
         + StepEvent(ApplyResults(t, rs[..i + 1], now), rs[i], partialCb, finalCb)
  {
    assert rs[..i + 1][..i] == rs[..i];
  }

  /** One step of the `onresult` loop, on values: the turn and the log after
      result `i` are those of the first `i + 1` results. */
  lemma ResultsStep(t0: Turn, rs: seq<ResultItem>, i: nat, now: int, partialCb: bool, finalCb: bool,
                    log0: seq<Event>, before: seq<Event>, t: Turn, log: seq<Event>)
    requires i < |rs|
    requires before == log0 + ResultEvents(t0, rs[..i], now, partialCb, finalCb)
    requires t == StepResult(ApplyResults(t0, rs[..i], now), rs[i], now)
    requires log == before + StepEvent(t, rs[i], partialCb, finalCb)
    ensures t == ApplyResults(t0, rs[..i + 1], now)
    ensures log == log0 + ResultEvents(t0, rs[..i + 1], now, partialCb, finalCb)
  {
    ResultsSnoc(t0, rs, i, now, partialCb, finalCb);
  }

  lemma ExtendAllSnoc(acc: string, ts: seq<string>, x: string)
    ensures ExtendAll(acc, ts + [x]) == Extend(ExtendAll(acc, ts), x)
  {
    assert (ts + [x])[..|ts|] == ts;
  }

  /** Once a text has been accumulated, accumulating more is joining with
      single spaces: no text is lost, reordered or glued to its neighbour. */
  lemma {:induction false} ExtendAllJoin(acc: string, ts: seq<string>)
    requires acc != ""
    ensures ExtendAll(acc, ts) == Join([acc] + ts, " ")
    decreases |ts|
  {
    if ts != [] {
      var init := ts[..|ts| - 1];
      ExtendAllJoin(acc, init);
      ExtendAllNonEmpty(acc, init);
      JoinAppend([acc] + init, [ts[|ts| - 1]], " ");
      assert [acc] + init + [ts[|ts| - 1]] == [acc] + ts;
    }
  }

  lemma {:induction false} ExtendAllNonEmpty(acc: string, ts: seq<string>)
    requires acc != ""
    ensures ExtendAll(acc, ts) != ""
    decreases |ts|
  {
    if ts != [] {
      ExtendAllNonEmpty(acc, ts[..|ts| - 1]);
    }
  }

  /** Each result of a batch calls exactly one callback, in order, when both
      are registered: the final callback for a final result and the partial
      callback for an interim one. */
  lemma {:induction false} ResultEventsOnePerResult(t: Turn, rs: seq<ResultItem>, now: int)
    ensures |ResultEvents(t, rs, now, true, true)| == |rs|
    ensures forall i :: 0 <= i < |rs| ==>
      (ResultEvents(t, rs, now, true, true)[i].Final? <==> rs[i].isFinal)
    ensures forall i :: 0 <= i < |rs| ==>
      (ResultEvents(t, rs, now, true, true)[i].Partial? <==> !rs[i].isFinal)
    decreases |rs|
  {
    if rs != [] {
      var init := rs[..|rs| - 1];
      ResultEventsOnePerResult(t, init, now);
      var e := ResultEvents(t, rs, now, true, true);
      var e0 := ResultEvents(t, init, now, true, true);
      forall i | 0 <= i < |rs|
        ensures (e[i].Final? <==> rs[i].isFinal) && (e[i].Partial? <==> !rs[i].isFinal)
      {
        if i < |rs| - 1 {
          assert e[i] == e0[i];
          assert rs[i] == init[i];
        }
      }
    }
  }

  // ---------------------------------------------------------------------------
  // The silence counter

  /** `tooShort()`: the turn has not lasted `minDurationMs` yet. */
  predicate TooShort(s: Settings, startedAt: int, now: int) {
    now - startedAt < s.minDurationMs
  }

  /** `enoughChars()`: the text heard so far, trimmed, is long enough. */
  predicate EnoughChars(s: Settings, t: Turn) {
    |Trim(t.finals + " " + t.interim)| >= s.minChars
  }

  /** `longSilence()`: no final result for at least `endSilenceMs`. */
  predicate LongSilence(s: Settings, t: Turn, now: int) {
    now - t.lastVoiceAt >= s.endSilenceMs
  }

  /** All three conditions of a successful silence check. */
  predicate SilenceCheckPasses(s: Settings, startedAt: int, t: Turn, now: int) {
    !TooShort(s, startedAt, now) && EnoughChars(s, t) && LongSilence(s, t, now)
  }

  /** The silence counter after the check that ends `onresult`. */
  function NextCount(s: Settings, startedAt: int, t: Turn, now: int): nat {
    if SilenceCheckPasses(s, startedAt, t, now) then t.okSilenceCount + 1
    else if !LongSilence(s, t, now) then 0
    else t.okSilenceCount
  }

  /** The check that ends `onresult` finishes the turn. */
  predicate EndsTurn(s: Settings, startedAt: int, t: Turn, now: int) {
    SilenceCheckPasses(s, startedAt, t, now) && t.okSilenceCount + 1 >= s.silenceChecks
  }

  /** The counter goes up exactly when all three conditions hold, drops to
      zero exactly when the silence is too short, and otherwise (long
      silence, but too early or too little text) keeps its value; the turn
      ends only on a passing check that brings the counter to
      `silenceChecks`. */
  lemma NextCountRules(s: Settings, startedAt: int, t: Turn, now: int)
    ensures NextCount(s, startedAt, t, now) == t.okSilenceCount + 1 <==> SilenceCheckPasses(s, startedAt, t, now)
    ensures !LongSilence(s, t, now) ==> NextCount(s, startedAt, t, now) == 0
    ensures LongSilence(s, t, now) && !SilenceCheckPasses(s, startedAt, t, now)
      ==> NextCount(s, startedAt, t, now) == t.okSilenceCount
    ensures EndsTurn(s, startedAt, t, now) <==>
      SilenceCheckPasses(s, startedAt, t, now) && NextCount(s, startedAt, t, now) >= s.silenceChecks
  {
  }

  /** A batch that brings a final result cannot end the turn while any
      silence is required: the voice was heard at `now` itself, so the
      counter restarts from zero. */
  lemma FinalResultRestartsCount(s: Settings, startedAt: int, t: Turn, rs: seq<ResultItem>, now: int)
    requires HasFinal(rs) && s.endSilenceMs > 0
    ensures NextCount(s, startedAt, ApplyResults(t, rs, now), now) == 0
    ensures !EndsTurn(s, startedAt, ApplyResults(t, rs, now), now)
  {
    ApplyResultsVoice(t, rs, now);
  }

  /** With the defaults a turn ends no earlier than the second passing
      check: one passing check after a reset is not enough. */
  lemma OneCheckIsNotEnough(startedAt: int, t: Turn, now: int)
    requires t.okSilenceCount == 0
    ensures !EndsTurn(Resolve(NoOptions), startedAt, t, now)
    ensures SilenceCheckPasses(Resolve(NoOptions), startedAt, t, now) ==>
      NextCount(Resolve(NoOptions), startedAt, t, now) == 1
  {
  }

  // ---------------------------------------------------------------------------
  // The service and one `listen` call

  /** The shared service object: the latest recogniser, the `listening`
      flag every pending `listen` consults, and which callbacks are set. */
  class RecognitionSvc {
    var rec: Option<nat>
    var listening: bool
    var partialCb: bool
    var finalCb: bool
    /** Callback invocations and recogniser calls, oldest first. */
    var log: seq<Event>
    /** Recognisers created so far; the next one is numbered by it. */
    var recCount: nat

    constructor ()
      ensures rec == None && !listening && !partialCb && !finalCb
      ensures log == [] && recCount == 0
    {
      rec := None;
      listening := false;
      partialCb := false;
      finalCb := false;
      log := [];
      recCount := 0;
    }

    /** `onPartial(cb)`: register (`true`) or clear the partial callback. */
    method OnPartial(registered: bool)
      modifies this
      ensures partialCb == registered
      ensures rec == old(rec) && listening == old(listening) && finalCb == old(finalCb)
      ensures log == old(log) && recCount == old(recCount)
    {
      partialCb := registered;
    }

    /** `onFinal(cb)`: register (`true`) or clear the final callback. */
    method OnFinal(registered: bool)
      modifies this
      ensures finalCb == registered
      ensures rec == old(rec) && listening == old(listening) && partialCb == old(partialCb)
      ensures log == old(log) && recCount == old(recCount)
    {
      finalCb := registered;
    }

    /** `stop()`: stop the latest recogniser, if any, and clear `listening`.
        It does not resolve the pending `listen`, and it leaves its
        `finish` with nothing to do. */
    method Stop()
      modifies this
      ensures !listening
      ensures log == old(log) + (if old(rec).Some? then [RecStop(old(rec).value)] else [])
      ensures rec == old(rec) && partialCb == old(partialCb) && finalCb == old(finalCb)
      ensures recCount == old(recCount)
    {
      if rec.Some? {
        log := log + [RecStop(rec.value)];
      }
      listening := false;
    }

    /** `listen(opts)` at instant `now`. `supported` says whether the browser
        offers speech recognition, `startThrows` whether `rec.start()`
        throws. The returned session holds the closure of this call. */
    method Listen(opts: ListenOptions, now: int, supported: bool, startThrows: bool) returns (s: Session)
      modifies this
      ensures fresh(s) && s.svc == this && s.settings == Resolve(opts)
      ensures !supported ==> s.recId == None && s.timerMs == FallbackDelay(s.settings) && !s.resolved
      ensures !supported ==> rec == old(rec) && listening == old(listening) && log == old(log) && recCount == old(recCount)
      ensures supported ==>
        && s.recId == Some(old(recCount)) && rec == s.recId && recCount == old(recCount) + 1
        && s.timerMs == s.settings.maxTotalMs && s.startedAt == now
        && s.Current() == Turn("", "", now, 0)
      ensures supported && startThrows ==>
        !listening && s.resolved
        && log == old(log) + FinishEvents(old(recCount), partialCb, finalCb, "")
      ensures supported && !startThrows ==>
        listening && !s.resolved && log == old(log) + [RecStart(old(recCount))]
      ensures !s.finished
      ensures partialCb == old(partialCb) && finalCb == old(finalCb)
    {
      var settings := Resolve(opts);
      if !supported {
        s := new Session(this, settings, None, now, FallbackDelay(settings));
        return;
      }
      var id := recCount;
      recCount := recCount + 1;
      rec := Some(id);
      listening := true;
      s := new Session(this, settings, Some(id), now, settings.maxTotalMs);
      if startThrows {
        s.Finish();
      } else {
        log := log + [RecStart(id)];
      }
    }
  }

  /** The closure of one `listen` call. `recId` is its own recogniser
      (absent without recognition support); `timerMs` is the delay of the
      one timer the call sets. */
  class Session {
    const svc: RecognitionSvc
    const settings: Settings
    const recId: Option<nat>
    const startedAt: int
    const timerMs: int
    var finals: string
    var interim: string
    var lastVoiceAt: int
    var okSilenceCount: nat
    /** The promise `listen` returned has been resolved. */
    var resolved: bool
    /** This call has finished its own turn; only `FinishOwn` uses it. */
    var finished: bool

    constructor (svc: RecognitionSvc, settings: Settings, recId: Option<nat>, now: int, timerMs: int)
      ensures this.svc == svc && this.settings == settings && this.recId == recId
      ensures startedAt == now && this.timerMs == timerMs
      ensures Current() == Turn("", "", now, 0) && !resolved && !finished
    {
      this.svc := svc;
      this.settings := settings;
      this.recId := recId;
      startedAt := now;
      this.timerMs := timerMs;
      finals := "";
      interim := "";
      lastVoiceAt := now;
      okSilenceCount := 0;
      resolved := false;
      finished := false;
    }

    function Current(): Turn
      reads this
    {
      Turn(finals, interim, lastVoiceAt, okSilenceCount)
    }

    /** `finish()`: acts only while the `listening` flag is set; then it
        clears the flag, stops this call's recogniser, clears the partial
        text, delivers the trimmed final text and resolves. The flag belongs
        to the service, not to this call: once a later `listen` has set it
        again, this call's pending timer or events finish again, and the
        later call's own `finish` then finds the flag cleared
        (`StaleTimerScenario`). */
    method Finish()
      requires recId.Some?
      modifies this, svc
      ensures !svc.listening && Current() == old(Current()) && finished == old(finished)
      ensures old(svc.listening) ==>
        resolved && svc.log == old(svc.log) + FinishEvents(recId.value, svc.partialCb, svc.finalCb, finals)
      ensures !old(svc.listening) ==> resolved == old(resolved) && svc.log == old(svc.log)
      ensures svc.rec == old(svc.rec) && svc.partialCb == old(svc.partialCb) && svc.finalCb == old(svc.finalCb)
      ensures svc.recCount == old(svc.recCount)
    {
      if !svc.listening {
        return;
      }
      svc.listening := false;
      svc.log := svc.log + FinishEvents(recId.value, svc.partialCb, svc.finalCb, finals);
      resolved := true;
    }

    /** `rec.onresult` for the results `items[resultIndex..]` at instant
        `now`: the interim text is rebuilt from scratch, each result is
        taken in order, then one silence check is made, which may finish
        the turn. */
    method OnResult(items: seq<ResultItem>, resultIndex: nat, now: int)
      requires recId.Some?
      modifies this, svc
      ensures var rs := if resultIndex < |items| then items[resultIndex..] else [];
        var t0 := old(Current()).(interim := "");
        var t := ApplyResults(t0, rs, now);
        && finals == t.finals && interim == t.interim && lastVoiceAt == t.lastVoiceAt
        && okSilenceCount == NextCount(settings, startedAt, t, now)
        && var heard := old(svc.log) + ResultEvents(t0, rs, now, old(svc.partialCb), old(svc.finalCb));
        && (EndsTurn(settings, startedAt, t, now) && old(svc.listening) ==>
              !svc.listening && resolved
              && svc.log == heard + FinishEvents(recId.value, svc.partialCb, svc.finalCb, t.finals))
        && (!(EndsTurn(settings, startedAt, t, now) && old(svc.listening)) ==>
              svc.listening == old(svc.listening) && resolved == old(resolved) && svc.log == heard)
      ensures svc.rec == old(svc.rec) && svc.partialCb == old(svc.partialCb) && svc.finalCb == old(svc.finalCb)
      ensures svc.recCount == old(svc.recCount)
    {
      interim := "";
      ghost var rs := if resultIndex < |items| then items[resultIndex..] else [];
      ghost var t0 := Current();
      if resultIndex < |items| {
        TakeResults(items[resultIndex..], now);
      }
      assert Current() == ApplyResults(t0, rs, now);
      assert svc.log == old(svc.log) + ResultEvents(t0, rs, now, svc.partialCb, svc.finalCb);
      SilenceCheck(now);
    }

    /** The silence check that ends `onresult`: count a passing check,
        reset the count after recent voice, and finish the turn once enough
        checks have passed. */
    method SilenceCheck(now: int)
      requires recId.Some?
      modifies this, svc
      ensures var t := old(Current());
        && finals == t.finals && interim == t.interim && lastVoiceAt == t.lastVoiceAt
        && okSilenceCount == NextCount(settings, startedAt, t, now)
        && (EndsTurn(settings, startedAt, t, now) && old(svc.listening) ==>
              !svc.listening && resolved
              && svc.log == old(svc.log) + FinishEvents(recId.value, svc.partialCb, svc.finalCb, t.finals))
        && (!(EndsTurn(settings, startedAt, t, now) && old(svc.listening)) ==>
              svc.listening == old(svc.listening) && resolved == old(resolved) && svc.log == old(svc.log))
      ensures svc.rec == old(svc.rec) && svc.partialCb == old(svc.partialCb) && svc.finalCb == old(svc.finalCb)
      ensures svc.recCount == old(svc.recCount)
    {
      var t := Current();
      if SilenceCheckPasses(settings, startedAt, t, now) {
        okSilenceCount := okSilenceCount + 1;
        if okSilenceCount >= settings.silenceChecks {
          Finish();
        }
      } else if !LongSilence(settings, t, now) {
        okSilenceCount := 0;
      }
    }

    /** The loop of `onresult` over the results of one event. */
    method TakeResults(rs: seq<ResultItem>, now: int)
      modifies this, svc
      ensures Current() == ApplyResults(old(Current()), rs, now)
      ensures svc.log == old(svc.log) + ResultEvents(old(Current()), rs, now, svc.partialCb, svc.finalCb)
      ensures svc.listening == old(svc.listening) && resolved == old(resolved)
      ensures svc.rec == old(svc.rec) && svc.partialCb == old(svc.partialCb) && svc.finalCb == old(svc.finalCb)
      ensures svc.recCount == old(svc.recCount)
    {
      ghost var t0 := Current();
      ghost var log0 := svc.log;
      ghost var pc, fc := svc.partialCb, svc.finalCb;
      for i := 0 to |rs|
        invariant Current() == ApplyResults(t0, rs[..i], now)
        invariant svc.log == log0 + ResultEvents(t0, rs[..i], now, pc, fc)
        invariant svc.listening == old(svc.listening) && resolved == old(resolved)
        invariant svc.rec == old(svc.rec) && svc.partialCb == pc && svc.finalCb == fc
        invariant svc.recCount == old(svc.recCount)
      {
        ghost var before := svc.log;
        TakeResult(rs[i], now);
        ResultsStep(t0, rs, i, now, pc, fc, log0, before, Current(), svc.log);
      }
      assert rs[..|rs|] == rs;
    }

    /** The loop body of `onresult` for one result: a final transcript is
        appended to `finals` and marks the last voice, an interim one to
        `interim`; the matching callback gets the trimmed text so far. */
    method TakeResult(r: ResultItem, now: int)
      modifies this, svc
      ensures Current() == StepResult(old(Current()), r, now)
      ensures svc.log == old(svc.log) + StepEvent(Current(), r, svc.partialCb, svc.finalCb)
      ensures svc.listening == old(svc.listening) && resolved == old(resolved)
      ensures svc.rec == old(svc.rec) && svc.partialCb == old(svc.partialCb) && svc.finalCb == old(svc.finalCb)
      ensures svc.recCount == old(svc.recCount)
    {
      var txt := TranscriptOf(r);
      if r.isFinal {
        finals := finals + (if finals != "" then " " else "") + txt;
        lastVoiceAt := now;
        okSilenceCount := 0;
        if svc.finalCb {
          svc.log := svc.log + [Final(Trim(finals))];
        }
      } else {
        interim := interim + (if interim != "" then " " else "") + txt;
        if svc.partialCb {
          svc.log := svc.log + [Partial(Trim(finals + " " + interim))];
        }
      }
    }

    /** `rec.onerror`: finish the turn. */
    method OnError()
      requires recId.Some?
      modifies this, svc
      ensures !svc.listening && Current() == old(Current()) && finished == old(finished)
      ensures old(svc.listening) ==>
        resolved && svc.log == old(svc.log) + FinishEvents(recId.value, svc.partialCb, svc.finalCb, finals)
      ensures !old(svc.listening) ==> resolved == old(resolved) && svc.log == old(svc.log)
      ensures svc.rec == old(svc.rec) && svc.partialCb == old(svc.partialCb) && svc.finalCb == old(svc.finalCb)
      ensures svc.recCount == old(svc.recCount)
    {
      Finish();
    }

    /** `rec.onend`: finish the turn. */
    method OnEnd()
      requires recId.Some?
      modifies this, svc
      ensures !svc.listening && Current() == old(Current()) && finished == old(finished)
      ensures old(svc.listening) ==>
        resolved && svc.log == old(svc.log) + FinishEvents(recId.value, svc.partialCb, svc.finalCb, finals)
      ensures !old(svc.listening) ==> resolved == old(resolved) && svc.log == old(svc.log)
      ensures svc.rec == old(svc.rec) && svc.partialCb == old(svc.partialCb) && svc.finalCb == old(svc.finalCb)
      ensures svc.recCount == old(svc.recCount)
    {
      Finish();
    }

    /** The timer `listen` set fires (after `timerMs`): with a recogniser it
        is the `maxTotalMs` safety cut and finishes the turn; without one it
        just resolves. */
    method OnTimeout()
      modifies this, svc
      ensures Current() == old(Current()) && finished == old(finished)
      ensures recId.None? ==> resolved && unchanged(svc)
      ensures recId.Some? ==> !svc.listening
      ensures recId.Some? ==>
        && svc.rec == old(svc.rec) && svc.partialCb == old(svc.partialCb) && svc.finalCb == old(svc.finalCb)
        && svc.recCount == old(svc.recCount)
      ensures recId.Some? && old(svc.listening) ==>
        resolved && svc.log == old(svc.log) + FinishEvents(recId.value, svc.partialCb, svc.finalCb, finals)
      ensures recId.Some? && !old(svc.listening) ==> resolved == old(resolved) && svc.log == old(svc.log)
    {
      if recId.None? {
        resolved := true;
      } else {
        Finish();
      }
    }

    /** `finish()` with a flag of its own call: it acts once per call,
        whatever other calls have done to `listening`, and clears
        `listening` only while its recogniser is still the service's
        current one. */
    method FinishOwn()
      requires recId.Some?
      modifies this, svc
      ensures finished && Current() == old(Current())
      ensures !old(finished) ==>
        && resolved
        && svc.log == old(svc.log) + FinishEvents(recId.value, svc.partialCb, svc.finalCb, finals)
        && svc.listening == (old(svc.listening) && old(svc.rec) != recId)
      ensures old(finished) ==>
        resolved == old(resolved) && svc.log == old(svc.log) && svc.listening == old(svc.listening)
      ensures svc.rec == old(svc.rec) && svc.partialCb == old(svc.partialCb) && svc.finalCb == old(svc.finalCb)
      ensures svc.recCount == old(svc.recCount)
    {
      if finished {
        return;
      }
      finished := true;
      if svc.rec == recId {
        svc.listening := false;
      }
      svc.log := svc.log + FinishEvents(recId.value, svc.partialCb, svc.finalCb, finals);
      resolved := true;
    }
  }

  // ---------------------------------------------------------------------------
  // A stale timer

  /** Two turns, as written: the first ends with its recogniser, a second
      `listen` starts 6 s later, and then the first call's `maxTotalMs`
      timer fires, followed by the end of the second recogniser. The stale
      timer stops the first recogniser a second time and clears the flag
      the second call set, so the second turn is never resolved. */
  method StaleTimerScenario() returns (log: seq<Event>, secondResolved: bool)
    ensures log == [RecStart(0), RecStop(0), RecStart(1), RecStop(0)]
    ensures !secondResolved
  {
    var svc := new RecognitionSvc();
    var s1 := svc.Listen(NoOptions, 0, true, false);
    s1.OnEnd();
    var s2 := svc.Listen(NoOptions, 6000, true, false);
    s1.OnTimeout();
    s2.OnEnd();
    log, secondResolved := svc.log, s2.resolved;
  }

  /** The same events with each call finishing on its own flag: the stale
      timer does nothing, and the end of the second recogniser stops it
      and resolves the second turn. */
  method OwnFlagScenario() returns (log: seq<Event>, secondResolved: bool)
    ensures log == [RecStart(0), RecStop(0), RecStart(1), RecStop(1)]
    ensures secondResolved
  {
    var svc := new RecognitionSvc();
    var s1 := svc.Listen(NoOptions, 0, true, false);
    s1.FinishOwn();
    var s2 := svc.Listen(NoOptions, 6000, true, false);
    s1.FinishOwn();
    s2.FinishOwn();
    log, secondResolved := svc.log, s2.resolved;
  }
}
