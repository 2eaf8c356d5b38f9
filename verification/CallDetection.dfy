// Is a call in progress? The timed detector of callstate.py and the history it must agree with.
module CallDetection {
  import opened Prelude

  datatype CallState = IDLE | JOINING | IN_CALL
  datatype MicState = NO_CALL | OPEN | MUTED

  const EXTERNAL_FRESH_S := 15.0

  datatype CaptureStream = CaptureStream(corked: bool, muted: bool) {
    predicate Live() { !(corked || muted) }
  }

  /** What one call app holds; `service` is the name a window title gives it, else the app itself. */
  datatype AppEvidence = AppEvidence(app: string, service: string, camera: bool, streams: seq<CaptureStream>)

  datatype ExternalMute = ExternalMute(muted: bool, source: string, at: real)

  datatype CallSnapshot = CallSnapshot(
    state: CallState, service: Option<string>, app: Option<string>, apps: seq<string>,
    camera: bool, mic: MicState, since: Option<real>, reason: string, external: Option<ExternalMute>)

  function IdleSnapshot(since: Option<real>): CallSnapshot
  {
    CallSnapshot(IDLE, None, None, [], false, NO_CALL, since, "", None)
  }

  predicate HasCapture(apps: seq<AppEvidence>)
  {
    exists i :: 0 <= i < |apps| && apps[i].streams != []
  }

  predicate HasCamera(apps: seq<AppEvidence>)
  {
    exists i :: 0 <= i < |apps| && apps[i].camera
  }

  predicate HasLiveStream(apps: seq<AppEvidence>)
  {
    exists i, j :: 0 <= i < |apps| && 0 <= j < |apps[i].streams| && apps[i].streams[j].Live()
  }

  function Mic(apps: seq<AppEvidence>, external: Option<ExternalMute>): MicState
  {
    match external
    case Some(report) => if report.muted then MUTED else OPEN
    case None => if HasLiveStream(apps) then OPEN else MUTED
  }

  /** The first app that captures audio, else the first app. */
  function Primary(apps: seq<AppEvidence>): AppEvidence
    requires apps != []
  {
    if apps[0].streams != [] || !HasCapture(apps) then apps[0] else PrimaryCapture(apps)
  }

  function PrimaryCapture(apps: seq<AppEvidence>): (primary: AppEvidence)
    requires HasCapture(apps)
    ensures primary in apps && primary.streams != []
  {
    if apps[0].streams != [] then apps[0]
    else
      assert HasCapture(apps[1..]) by {
        var i :| 0 <= i < |apps| && apps[i].streams != [];
        assert apps[1..][i - 1] == apps[i];
      }
      PrimaryCapture(apps[1..])
  }

  function Names(apps: seq<AppEvidence>): seq<string>
  {
    seq(|apps|, i requires 0 <= i < |apps| => apps[i].app)
  }

  /** `", ".join(items)`. */
  function WithCommas(items: seq<string>): string
  {
    if items == [] then "" else if |items| == 1 then items[0] else items[0] + ", " + WithCommas(items[1..])
  }

  /** `_join`. */
  function Listed(items: seq<string>): string
    requires items != []
  {
    if |items| == 1 then items[0] else WithCommas(items[..|items| - 1]) + " and " + items[|items| - 1]
  }

  /** `_reason` of a state that is not idle. */
  function Reason(apps: seq<AppEvidence>, service: string): (reason: string)
    requires apps != []
    ensures reason != ""
  {
    var holds :=
      if HasCamera(apps) && HasCapture(apps) then "the camera and a microphone stream"
      else if HasCamera(apps) then "the camera"
      else if HasCapture(apps) then "a microphone stream"
      else "";
    var names := Names(apps);
    var who := if service != "" && service !in names then service + " in " + Listed(names) else Listed(names);
    who + " has " + holds + " open"
  }

  function Fresh(external: Option<ExternalMute>, now: real): Option<ExternalMute>
  {
    if external.Some? && now - external.value.at > EXTERNAL_FRESH_S then None else external
  }

  // ----- The detector -----

  datatype Core = Core(snap: CallSnapshot, captureSince: Option<real>, goneSince: Option<real>)

  const START := Core(IdleSnapshot(None), None, None)

  datatype Settings = Settings(settle: real, leave: real)

  function Quieted(s: Settings, core: Core, now: real): Core
  {
    if core.snap.state == IDLE then core
    else
      var gone := if core.goneSince.None? then now else core.goneSince.value;
      if now - gone < s.leave then core.(goneSince := Some(gone))
      else Core(IdleSnapshot(Some(now)), None, None)
  }

  function Evidence(s: Settings, core: Core, apps: seq<AppEvidence>, external: Option<ExternalMute>, now: real): Core
    requires apps != []
  {
    var capture :=
      if !HasCapture(apps) then None
      else if core.captureSince.Some? then core.captureSince
      else Some(now);
    var held := capture.Some? && now - capture.value >= s.settle;
    var state := if held || core.snap.state == IN_CALL then IN_CALL else JOINING;
    var since := if core.snap.state == state && core.snap.since.Some? then core.snap.since else Some(now);
    var primary := Primary(apps);
    var snap := CallSnapshot(
      state, Some(primary.service), Some(primary.app), Names(apps), HasCamera(apps), Mic(apps, external), since,
      Reason(apps, primary.service), external);
    Core(snap, capture, None)
  }

  function Updated(s: Settings, core: Core, apps: seq<AppEvidence>, external: Option<ExternalMute>, now: real): Core
  {
    if apps == [] then Quieted(s, core, now) else Evidence(s, core, apps, Fresh(external, now), now)
  }

  class CallDetector {
    const settings: Settings
    var snap: CallSnapshot
    var captureSince: Option<real>
    var goneSince: Option<real>

    constructor (settings: Settings)
      ensures this.settings == settings && Now() == START
    {
      this.settings := settings;
      snap := IdleSnapshot(None);
      captureSince := None;
      goneSince := None;
    }

    function Now(): Core
      reads this
    {
      Core(snap, captureSince, goneSince)
    }

    method Update(apps: seq<AppEvidence>, external: Option<ExternalMute>, now: real) returns (result: CallSnapshot)
      modifies this
      ensures Now() == Updated(settings, old(Now()), apps, external, now)
      ensures result == snap
    {
      var report := external;
      if report.Some? && now - report.value.at > EXTERNAL_FRESH_S {
        report := None;
      }
      var previous := snap;
      if apps == [] {
        result := Quiet(previous, now);
        return;
      }
      goneSince := None;
      if HasCapture(apps) {
        captureSince := if captureSince.Some? then captureSince else Some(now);
      } else {
        captureSince := None;
      }
      var held := captureSince.Some? && now - captureSince.value >= settings.settle;
      var state := if held || previous.state == IN_CALL then IN_CALL else JOINING;
      var primary := Primary(apps);
      var since := if previous.state == state && previous.since.Some? then previous.since else Some(now);
      snap := CallSnapshot(
        state, Some(primary.service), Some(primary.app), Names(apps), HasCamera(apps), Mic(apps, report), since,
        Reason(apps, primary.service), report);
      result := snap;
    }

    method Quiet(previous: CallSnapshot, now: real) returns (result: CallSnapshot)
      requires previous == snap
      modifies this
      ensures Now() == Quieted(settings, old(Now()), now)
      ensures result == snap
    {
      if previous.state == IDLE {
        return previous;
      }
      if goneSince.None? {
        goneSince := Some(now);
      }
      if now - goneSince.value < settings.leave {
        return previous;
      }
      captureSince, goneSince := None, None;
      snap := IdleSnapshot(Some(now));
      result := snap;
    }

    method Reset(now: real) returns (result: CallSnapshot)
      modifies this
      ensures Now() == Core(IdleSnapshot(Some(now)), None, None)
      ensures result == snap
    {
      captureSince, goneSince := None, None;
      snap := IdleSnapshot(Some(now));
      result := snap;
    }
  }

  // ----- Histories -----

  datatype Event =
    | Look(apps: seq<AppEvidence>, external: Option<ExternalMute>, now: real)
    | Reset(now: real)
  {
    predicate Empty() { Look? && apps == [] }
    predicate Seen() { Look? && apps != [] }
    predicate Capture() { Look? && HasCapture(apps) }
  }

  function After(s: Settings, core: Core, event: Event): Core
  {
    match event
    case Look(apps, external, now) => Updated(s, core, apps, external, now)
    case Reset(now) => Core(IdleSnapshot(Some(now)), None, None)
  }

  function Run(s: Settings, h: seq<Event>): Core
  {
    if h == [] then START else After(s, Run(s, h[..|h| - 1]), h[|h| - 1])
  }

  function State(s: Settings, h: seq<Event>): CallState
  {
    Run(s, h).snap.state
  }

  ghost predicate ClockForward(h: seq<Event>)
  {
    forall i, j :: 0 <= i <= j < |h| ==> h[i].now <= h[j].now
  }

  ghost predicate AllEmpty(h: seq<Event>, a: nat, b: nat)
    requires b < |h|
  {
    forall i :: a <= i <= b ==> h[i].Empty()
  }

  /** A call is over at place b: a reset, or an unbroken stretch of empty looks spans the leave hold. */
  ghost predicate EndsAt(s: Settings, h: seq<Event>, b: nat)
    requires b < |h|
  {
    h[b].Reset? || exists a: nat :: a <= b && AllEmpty(h, a, b) && h[b].now - h[a].now >= s.leave
  }

  ghost predicate EndedAfter(s: Settings, h: seq<Event>, k: nat)
  {
    exists b :: k < b < |h| && EndsAt(s, h, b)
  }

  /** Every piece of evidence has been followed by the end of its call. */
  ghost predicate DeclaredIdle(s: Settings, h: seq<Event>)
  {
    forall k :: 0 <= k < |h| && h[k].Seen() ==> EndedAfter(s, h, k)
  }

  /** Capture evidence from a to e, broken by nothing but empty looks, that lasted the settle time. */
  ghost predicate Settled(s: Settings, h: seq<Event>, a: nat, e: nat)
  {
    && a <= e < |h| && h[a].Capture() && h[e].Capture()
    && h[e].now - h[a].now >= s.settle
    && forall i :: a <= i <= e ==> h[i].Capture() || h[i].Empty()
  }

  ghost predicate SettledCall(s: Settings, h: seq<Event>, a: nat, e: nat)
  {
    Settled(s, h, a, e) && !EndedAfter(s, h, a)
  }

  ghost predicate DeclaredInCall(s: Settings, h: seq<Event>)
  {
    exists a: nat, e: nat :: SettledCall(s, h, a, e)
  }

  ghost function DeclaredState(s: Settings, h: seq<Event>): CallState
  {
    if DeclaredIdle(s, h) then IDLE else if DeclaredInCall(s, h) then IN_CALL else JOINING
  }

  // ----- Where the two clocks stand -----

  /** Where the final unbroken stretch of empty looks starts; |h| when there is none. */
  ghost function StretchStart(h: seq<Event>): (a: nat)
    ensures a <= |h|
    ensures forall i :: a <= i < |h| ==> h[i].Empty()
    ensures a > 0 ==> !h[a - 1].Empty()
  {
    if h == [] || !h[|h| - 1].Empty() then |h| else StretchStart(h[..|h| - 1])
  }

  /** Where the capture evidence that still counts starts. */
  ghost function CaptureStart(s: Settings, h: seq<Event>): (start: Option<nat>)
    ensures start.Some? ==> start.value < |h|
  {
    if h == [] then None
    else
      var n := |h| - 1;
      var before := CaptureStart(s, h[..n]);
      if h[n].Capture() then (if before.Some? then before else Some(n))
      else if h[n].Empty() && !EndsAt(s, h, n) then before
      else None
  }

  lemma EndsAtPrefix(s: Settings, h: seq<Event>, n: nat, b: nat)
    requires b < n <= |h|
    ensures EndsAt(s, h, b) <==> EndsAt(s, h[..n], b)
  {
    if EndsAt(s, h, b) && !h[b].Reset? {
      var a: nat :| a <= b && AllEmpty(h, a, b) && h[b].now - h[a].now >= s.leave;
      assert AllEmpty(h[..n], a, b) && h[..n][a] == h[a];
    }
    if EndsAt(s, h[..n], b) && !h[b].Reset? {
      var a: nat :| a <= b && AllEmpty(h[..n], a, b) && h[..n][b].now - h[..n][a].now >= s.leave;
      forall i | a <= i <= b ensures h[i].Empty() { assert h[..n][i].Empty(); }
      assert AllEmpty(h, a, b);
    }
  }

  /** With a forward clock only the longest stretch matters. */
  lemma EndsAtLast(s: Settings, h: seq<Event>)
    requires h != [] && ClockForward(h) && h[|h| - 1].Look?
    ensures var a := StretchStart(h);
            EndsAt(s, h, |h| - 1) <==> a < |h| && h[|h| - 1].now - h[a].now >= s.leave
  {
    var n, a := |h| - 1, StretchStart(h);
    if EndsAt(s, h, n) {
      var c: nat :| c <= n && AllEmpty(h, c, n) && h[n].now - h[c].now >= s.leave;
      assert h[n].Empty();
      assert a <= c;
    }
    if a < |h| && h[n].now - h[a].now >= s.leave {
      assert AllEmpty(h, a, n);
    }
  }

  lemma EndedAfterStep(s: Settings, h: seq<Event>, k: nat)
    requires h != [] && k < |h| - 1
    ensures EndedAfter(s, h, k) <==> EndedAfter(s, h[..|h| - 1], k) || EndsAt(s, h, |h| - 1)
  {
    hide EndsAt;
    var n := |h| - 1;
    if EndedAfter(s, h, k) && !EndsAt(s, h, n) {
      var b :| k < b < |h| && EndsAt(s, h, b);
      EndsAtPrefix(s, h, n, b);
    }
    if EndedAfter(s, h[..n], k) {
      var b :| k < b < n && EndsAt(s, h[..n], b);
      EndsAtPrefix(s, h, n, b);
    }
  }

  lemma IdleStep(s: Settings, h: seq<Event>)
    requires h != []
    ensures DeclaredIdle(s, h) <==>
            !h[|h| - 1].Seen() && (EndsAt(s, h, |h| - 1) || DeclaredIdle(s, h[..|h| - 1]))
  {
    var n := |h| - 1;
    forall k | 0 <= k < n && h[k].Seen()
      ensures EndedAfter(s, h, k) <==> EndedAfter(s, h[..n], k) || EndsAt(s, h, n)
    {
      EndedAfterStep(s, h, k);
    }
    assert !EndedAfter(s, h, n);
    if DeclaredIdle(s, h) && !EndsAt(s, h, n) {
      forall k | 0 <= k < n && h[..n][k].Seen() ensures EndedAfter(s, h[..n], k) {
        assert h[k].Seen();
      }
    }
    if !h[n].Seen() && (EndsAt(s, h, n) || DeclaredIdle(s, h[..n])) {
      forall k | 0 <= k < |h| && h[k].Seen() ensures EndedAfter(s, h, k) {
        assert h[..n][k].Seen();
      }
    }
  }

  /** What the start of the capture evidence means. */
  lemma {:induction false} CaptureStartMeaning(s: Settings, h: seq<Event>, c: nat)
    requires CaptureStart(s, h) == Some(c)
    ensures h[c].Capture() && !EndedAfter(s, h, c)
    ensures forall i :: c <= i < |h| ==> h[i].Capture() || h[i].Empty()
  {
    var n := |h| - 1;
    if c >= n {
    } else {
      CaptureStartMeaning(s, h[..n], c);
      assert h[..n][c] == h[c];
      forall i | c <= i < n ensures h[i].Capture() || h[i].Empty() {
        assert h[..n][i] == h[i];
      }
      if h[n].Capture() { CaptureIsNoEnd(s, h, n); }
      EndedAfterStep(s, h, c);
    }
  }

  lemma CaptureIsNoEnd(s: Settings, h: seq<Event>, b: nat)
    requires b < |h| && h[b].Seen()
    ensures !EndsAt(s, h, b)
  {
  }

  /** Any capture evidence that still counts started no earlier than the recorded start. */
  lemma {:induction false} CaptureStartFirst(s: Settings, h: seq<Event>, a: nat)
    requires a < |h| && h[a].Capture() && !EndedAfter(s, h, a)
    requires forall i :: a <= i < |h| ==> h[i].Capture() || h[i].Empty()
    ensures CaptureStart(s, h).Some? && CaptureStart(s, h).value <= a
  {
    hide EndsAt, EndedAfter;
    var n := |h| - 1;
    if a >= n {
    } else {
      assert h[..n][a] == h[a];
      forall i | a <= i < n ensures h[..n][i].Capture() || h[..n][i].Empty() {
        assert h[..n][i] == h[i];
      }
      EndedAfterStep(s, h, a);
      CaptureStartFirst(s, h[..n], a);
    }
  }

  lemma CaptureStartSome(s: Settings, h: seq<Event>)
    requires h != [] && h[|h| - 1].Capture()
    ensures CaptureStart(s, h).Some?
  {
    hide EndsAt;
  }

  /** A settled call is one from before that has not ended, or one that the last event settles. */
  lemma InCallBefore(s: Settings, h: seq<Event>, a: nat, e: nat)
    requires h != [] && ClockForward(h) && SettledCall(s, h, a, e)
    ensures e < |h| - 1 ==> SettledCall(s, h[..|h| - 1], a, e) && !EndsAt(s, h, |h| - 1)
    ensures e == |h| - 1 ==>
              && h[e].Capture() && CaptureStart(s, h).Some?
              && h[e].now - h[CaptureStart(s, h).value].now >= s.settle
  {
    hide EndsAt, CaptureStart;
    var n := |h| - 1;
    if e < n {
      EndedAfterStep(s, h, a);
      assert h[..n][a] == h[a] && h[..n][e] == h[e];
      assert forall i :: a <= i <= e ==> h[..n][i] == h[i];
    } else {
      CaptureStartFirst(s, h, a);
    }
  }

  lemma InCallStays(s: Settings, h: seq<Event>, a: nat, e: nat)
    requires h != [] && SettledCall(s, h[..|h| - 1], a, e) && !EndsAt(s, h, |h| - 1)
    ensures SettledCall(s, h, a, e)
  {
    hide EndsAt;
    var n := |h| - 1;
    EndedAfterStep(s, h, a);
    forall i | a <= i <= e ensures h[i].Capture() || h[i].Empty() {
      assert h[..n][i] == h[i];
    }
  }

  lemma InCallSettles(s: Settings, h: seq<Event>, c: nat)
    requires h != [] && h[|h| - 1].Capture() && CaptureStart(s, h) == Some(c)
    requires h[|h| - 1].now - h[c].now >= s.settle
    ensures SettledCall(s, h, c, |h| - 1)
  {
    hide EndsAt, CaptureStart, EndedAfter;
    CaptureStartMeaning(s, h, c);
  }

  lemma InCallStep(s: Settings, h: seq<Event>)
    requires h != [] && ClockForward(h)
    ensures DeclaredInCall(s, h) <==>
            || (DeclaredInCall(s, h[..|h| - 1]) && !EndsAt(s, h, |h| - 1))
            || (h[|h| - 1].Capture() && h[|h| - 1].now - h[CaptureStart(s, h).value].now >= s.settle)
  {
    hide EndsAt, CaptureStart, ClockForward, SettledCall;
    var n := |h| - 1;
    if h[n].Capture() { CaptureStartSome(s, h); }
    if DeclaredInCall(s, h) {
      var a: nat, e: nat :| SettledCall(s, h, a, e);
      SettledCallRange(s, h, a, e);
      InCallBefore(s, h, a, e);
    }
    if DeclaredInCall(s, h[..n]) && !EndsAt(s, h, n) {
      var a: nat, e: nat :| SettledCall(s, h[..n], a, e);
      InCallStays(s, h, a, e);
    }
    if h[n].Capture() && h[n].now - h[CaptureStart(s, h).value].now >= s.settle {
      InCallSettles(s, h, CaptureStart(s, h).value);
    }
  }

  lemma SettledCallRange(s: Settings, h: seq<Event>, a: nat, e: nat)
    requires SettledCall(s, h, a, e)
    ensures e < |h|
  {
    hide EndedAfter;
  }

  ghost predicate Agrees(s: Settings, h: seq<Event>)
  {
    var core, a, c := Run(s, h), StretchStart(h), CaptureStart(s, h);
    && core.snap.state == DeclaredState(s, h)
    && core.goneSince == (if core.snap.state != IDLE && a < |h| then Some(h[a].now) else None)
    && core.captureSince == (if c.Some? then Some(h[c.value].now) else None)
    && (core.snap.state == IDLE ==> c.None?)
    && (core.snap.state != IDLE ==> core.snap.since.Some?)
    && (DeclaredInCall(s, h) ==> !DeclaredIdle(s, h))
  }

  /** The two clocks after one more event. */
  lemma ClocksStep(s: Settings, h: seq<Event>)
    requires h != []
    ensures var n, a, c := |h| - 1, StretchStart(h), CaptureStart(s, h);
            && (a < n ==> a == StretchStart(h[..n]) && h[a] == h[..n][a])
            && (c.Some? && c.value < n ==> c == CaptureStart(s, h[..n]) && h[c.value] == h[..n][c.value])
  {
  }

  lemma AgreesSeen(s: Settings, h: seq<Event>)
    requires h != [] && ClockForward(h) && Agrees(s, h[..|h| - 1]) && h[|h| - 1].Seen()
    ensures Agrees(s, h)
  {
    hide Reason, Mic, Primary, DeclaredIdle, DeclaredInCall, EndsAt;
    var n := |h| - 1;
    CaptureIsNoEnd(s, h, n);
    ClocksStep(s, h);
    IdleStep(s, h);
    assert StretchStart(h) == |h|;
    InCallStep(s, h);
  }

  lemma AgreesQuiet(s: Settings, h: seq<Event>)
    requires h != [] && ClockForward(h) && Agrees(s, h[..|h| - 1]) && h[|h| - 1].Empty()
    ensures Agrees(s, h)
  {
    hide Reason, Mic, Primary, DeclaredIdle, DeclaredInCall, EndsAt;
    var n := |h| - 1;
    ClocksStep(s, h);
    IdleStep(s, h);
    EndsAtLast(s, h);
    assert !h[n].Capture();
    assert DeclaredInCall(s, h) <==> DeclaredInCall(s, h[..n]) && !EndsAt(s, h, n) by { InCallStep(s, h); }
    if StretchStart(h[..n]) < n {
      assert StretchStart(h) == StretchStart(h[..n]);
    }
  }

  lemma AgreesReset(s: Settings, h: seq<Event>)
    requires h != [] && ClockForward(h) && Agrees(s, h[..|h| - 1]) && h[|h| - 1].Reset?
    ensures Agrees(s, h)
  {
    hide Reason, Mic, Primary, DeclaredIdle, DeclaredInCall;
    IdleStep(s, h);
    InCallStep(s, h);
  }

  lemma AgreesStep(s: Settings, h: seq<Event>)
    requires h != [] && ClockForward(h) && Agrees(s, h[..|h| - 1])
    ensures Agrees(s, h)
  {
    var last := h[|h| - 1];
    if last.Reset? {
      AgreesReset(s, h);
    } else if last.Empty() {
      AgreesQuiet(s, h);
    } else {
      AgreesSeen(s, h);
    }
  }

  /** For every timed run, the detector's state and both clocks are the declared function of the history. */
  lemma {:induction false} DetectorRefinesHistory(s: Settings, h: seq<Event>)
    requires ClockForward(h)
    ensures Agrees(s, h)
  {
    if h == [] {
      assert !DeclaredInCall(s, h) && DeclaredIdle(s, h);
    } else {
      DetectorRefinesHistory(s, h[..|h| - 1]);
      AgreesStep(s, h);
    }
  }

  /** in_call never falls back to joining, and with a positive settle time idle never jumps to in_call. */
  lemma Transitions(s: Settings, h: seq<Event>, event: Event)
    requires ClockForward(h)
    ensures State(s, h) == IN_CALL ==> After(s, Run(s, h), event).snap.state != JOINING
    ensures s.settle > 0.0 && State(s, h) == IDLE ==> After(s, Run(s, h), event).snap.state != IN_CALL
  {
    DetectorRefinesHistory(s, h);
  }

  /** `since` is the time of the event that last changed the state, or of a later reset. */
  lemma {:induction false} SinceLastChange(s: Settings, h: seq<Event>) returns (change: Option<nat>)
    ensures change.None? ==> Run(s, h).snap.since.None? && forall j :: 0 <= j <= |h| ==> State(s, h[..j]) == IDLE
    ensures change.Some? ==>
      var i := change.value;
      && i < |h| && Run(s, h).snap.since == Some(h[i].now)
      && (h[i].Reset? || State(s, h[..i]) != State(s, h))
      && forall j :: i < j <= |h| ==> State(s, h[..j]) == State(s, h)
    ensures State(s, h) != IDLE ==> change.Some?
  {
    hide Reason, Mic, Primary;
    if h == [] {
      return None;
    }
    var n := |h| - 1;
    var h0 := h[..n];
    change := SinceLastChange(s, h0);
    assert h[..|h|] == h;
    forall j | 0 <= j <= n ensures h0[..j] == h[..j] {}
    if h[n].Reset? || State(s, h0) != State(s, h) {
      change := Some(n);
    }
  }

  /** A reason is given exactly while a call is on or starting. */
  lemma {:induction false} ReasonIffCall(s: Settings, h: seq<Event>)
    ensures Run(s, h).snap.reason == "" <==> State(s, h) == IDLE
  {
    hide Reason, Mic, Primary;
    if h == [] {
    } else {
      ReasonIffCall(s, h[..|h| - 1]);
    }
  }

  /** `current_call`: one look without hysteresis. */
  function CurrentCall(apps: seq<AppEvidence>): CallSnapshot
  {
    Updated(Settings(0.0, 0.0), START, apps, None, 0.0).snap
  }

  /** A capture stream alone makes a single look an in_call one: the camera does not matter. */
  lemma CurrentCallState(apps: seq<AppEvidence>)
    ensures CurrentCall(apps).state == (if apps == [] then IDLE else if HasCapture(apps) then IN_CALL else JOINING)
    ensures CurrentCall(apps).state == DeclaredState(Settings(0.0, 0.0), [Look(apps, None, 0.0)])
  {
    var h := [Look(apps, None, 0.0)];
    DetectorRefinesHistory(Settings(0.0, 0.0), h);
    assert h[..0] == [];
  }
}
