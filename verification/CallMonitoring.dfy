// The monitor around the detector: polls, resets and reports under one lock, and the notices its listeners get.
module CallMonitoring {
  import opened Prelude
  import opened CallDetection

  type Listener = nat

  /** One notification, as taken under the lock: who hears it, and the snapshots before and after. */
  datatype Notice = Notice(listeners: seq<Listener>, before: CallSnapshot, after: CallSnapshot)

  /** What `_changed` compares. */
  datatype Key = Key(state: CallState, service: Option<string>, mic: MicState, camera: bool)

  function KeyOf(snap: CallSnapshot): Key
  {
    Key(snap.state, snap.service, snap.mic, snap.camera)
  }

  predicate Changed(before: CallSnapshot, after: CallSnapshot)
  {
    KeyOf(before) != KeyOf(after)
  }

  datatype Health = Health(audio: bool, video: bool)
  datatype Gathered = Gathered(apps: seq<AppEvidence>, audioOk: bool, videoOk: bool)

  /** The monitor's state, with every notice so far in lock order. */
  datatype Monitor = Monitor(
    core: Core, external: Option<ExternalMute>, health: Health, listeners: seq<Listener>, notices: seq<Notice>)

  datatype Action =
    | Poll(found: Option<Gathered>, now: real)  // None: the probe raised
    | Reset(now: real)
    | ReportMute(report: Option<ExternalMute>)
    | Subscribe(listener: Listener)
    | Unsubscribe(listener: Listener)

  function Without(listeners: seq<Listener>, listener: Listener): seq<Listener>
  {
    if listeners == [] then []
    else if listeners[0] == listener then listeners[1..]
    else [listeners[0]] + Without(listeners[1..], listener)
  }

  function Noticed(m: Monitor, after: Core): Monitor
  {
    var notice := if Changed(m.core.snap, after.snap) then [Notice(m.listeners, m.core.snap, after.snap)] else [];
    m.(core := after, notices := m.notices + notice)
  }

  function Act(s: Settings, m: Monitor, action: Action): Monitor
  {
    match action
    case Poll(None, now) => m
    case Poll(Some(found), now) =>
      Noticed(m.(health := Health(found.audioOk, found.videoOk)), Updated(s, m.core, found.apps, m.external, now))
    case Reset(now) => Noticed(m.(external := None), Core(IdleSnapshot(Some(now)), None, None))
    case ReportMute(report) => m.(external := report)
    case Subscribe(listener) => m.(listeners := m.listeners + [listener])
    case Unsubscribe(listener) => m.(listeners := Without(m.listeners, listener))
  }

  class CallMonitor {
    const detector: CallDetector
    var external: Option<ExternalMute>
    var health: Health
    var listeners: seq<Listener>
    var notices: seq<Notice>

    constructor (detector: CallDetector)
      ensures this.detector == detector
      ensures Now() == Monitor(detector.Now(), None, Health(true, true), [], [])
    {
      this.detector := detector;
      external, health, listeners, notices := None, Health(true, true), [], [];
    }

    function Now(): Monitor
      reads this, detector
    {
      Monitor(detector.Now(), external, health, listeners, notices)
    }

    method PollOnce(found: Option<Gathered>, now: real) returns (result: CallSnapshot)
      modifies this, detector
      ensures Now() == Act(detector.settings, old(Now()), Poll(found, now))
      ensures result == Now().core.snap
    {
      if found.None? {
        return detector.snap;
      }
      var before := detector.snap;
      health := Health(found.value.audioOk, found.value.videoOk);
      result := detector.Update(found.value.apps, external, now);
      if Changed(before, result) {
        notices := notices + [Notice(listeners, before, result)];
      }
    }

    method Reset(now: real) returns (result: CallSnapshot)
      modifies this, detector
      ensures Now() == Act(detector.settings, old(Now()), Action.Reset(now))
      ensures result == Now().core.snap
    {
      var before := detector.snap;
      external := None;
      result := detector.Reset(now);
      if Changed(before, result) {
        notices := notices + [Notice(listeners, before, result)];
      }
    }

    method ReportMute(muted: Option<bool>, source: string, now: real)
      modifies this
      ensures Now() == Act(detector.settings, old(Now()),
                           Action.ReportMute(if muted.None? then None else Some(ExternalMute(muted.value, source, now))))
    {
      external := if muted.None? then None else Some(ExternalMute(muted.value, source, now));
    }

    method Subscribe(listener: Listener)
      modifies this
      ensures Now() == Act(detector.settings, old(Now()), Action.Subscribe(listener))
    {
      listeners := listeners + [listener];
    }

    /** What `subscribe` returns. */
    method Unsubscribe(listener: Listener)
      modifies this
      ensures Now() == Act(detector.settings, old(Now()), Action.Unsubscribe(listener))
    {
      listeners := Without(listeners, listener);
    }
  }

  function Perform(s: Settings, m: Monitor, actions: seq<Action>): Monitor
  {
    if actions == [] then m else Act(s, Perform(s, m, actions[..|actions| - 1]), actions[|actions| - 1])
  }

  /** The fields a listener knows: those of the last notice it heard, or those it started from. */
  function Known(listener: Listener, start: Key, notices: seq<Notice>): Key
  {
    if notices == [] then start
    else
      var last := notices[|notices| - 1];
      if listener in last.listeners then KeyOf(last.after)
      else Known(listener, start, notices[..|notices| - 1])
  }

  /** Each notice starts where the one before it ended. */
  ghost predicate Chained(start: Key, notices: seq<Notice>, end: Key)
  {
    if notices == [] then start == end
    else
      var n := |notices| - 1;
      KeyOf(notices[n].after) == end && Chained(start, notices[..n], KeyOf(notices[n].before))
  }

  lemma {:induction false} WithoutKeeps(listeners: seq<Listener>, gone: Listener, listener: Listener)
    requires listener in listeners && gone != listener
    ensures listener in Without(listeners, gone)
  {
    if listeners[0] != gone && listeners[0] != listener {
      WithoutKeeps(listeners[1..], gone, listener);
    }
  }

  lemma ActNotices(s: Settings, m: Monitor, action: Action)
    ensures var end := Act(s, m, action);
            || (end.notices == m.notices && KeyOf(end.core.snap) == KeyOf(m.core.snap))
            || end.notices == m.notices + [Notice(m.listeners, m.core.snap, end.core.snap)]
  {
  }

  lemma ActKeeps(s: Settings, m: Monitor, action: Action, listener: Listener)
    requires listener in m.listeners && action != Unsubscribe(listener)
    ensures listener in Act(s, m, action).listeners
  {
    hide Updated, Changed;
    if action.Unsubscribe? { WithoutKeeps(m.listeners, action.listener, listener); }
  }

  lemma HearOneMore(listener: Listener, start: Key, notices: seq<Notice>, notice: Notice)
    requires Chained(start, notices, KeyOf(notice.before)) && listener in notice.listeners
    ensures Chained(start, notices + [notice], KeyOf(notice.after))
    ensures Known(listener, start, notices + [notice]) == KeyOf(notice.after)
  {
    hide KeyOf;
    assert (notices + [notice])[..|notices|] == notices;
  }

  /** Over any interleaving of the locked sections, failing probes included, the notices chain, and a subscribed
      listener that keeps the last `after` knows the current state, service, microphone and camera. */
  lemma {:induction false} ListenerAgrees(s: Settings, m: Monitor, actions: seq<Action>, listener: Listener)
    requires listener in m.listeners && Unsubscribe(listener) !in actions
    ensures var end := Perform(s, m, actions);
            && |m.notices| <= |end.notices| && end.notices[..|m.notices|] == m.notices
            && Chained(KeyOf(m.core.snap), end.notices[|m.notices|..], KeyOf(end.core.snap))
            && Known(listener, KeyOf(m.core.snap), end.notices[|m.notices|..]) == KeyOf(end.core.snap)
            && listener in end.listeners
  {
    hide Act, KeyOf;
    if actions == [] {
    } else {
      var last := actions[|actions| - 1];
      ListenerAgrees(s, m, actions[..|actions| - 1], listener);
      var before, end := Perform(s, m, actions[..|actions| - 1]), Perform(s, m, actions);
      ActKeeps(s, before, last, listener);
      ActNotices(s, before, last);
      if end.notices != before.notices {
        var notice := Notice(before.listeners, before.core.snap, end.core.snap);
        assert end.notices[|m.notices|..] == before.notices[|m.notices|..] + [notice];
        HearOneMore(listener, KeyOf(m.core.snap), before.notices[|m.notices|..], notice);
      }
    }
  }

  /** The chain is in lock order only: two notices heard the other way round leave the listener wrong. */
  lemma DeliveryOrderMatters(s: Settings, m: Monitor, app: AppEvidence, listener: Listener)
    returns (actions: seq<Action>)
    requires m.core == START && m.listeners == [listener] && m.notices == [] && app.streams == [] && s.leave > 0.0
    ensures var end := Perform(s, m, actions);
            && |end.notices| == 2
            && Known(listener, KeyOf(m.core.snap), [end.notices[1], end.notices[0]]) != KeyOf(end.core.snap)
  {
    var first, second := Poll(Some(Gathered([app], true, true)), 1.0), Action.Reset(1.0);
    actions := [first, second];
    assert actions[..1] == [first] && [first][..0] == [];
    assert Perform(s, m, [first]) == Act(s, m, first);
    assert Perform(s, m, actions) == Act(s, Act(s, m, first), second);
  }

  /** Every notice of the run was heard by the listener. */
  lemma {:induction false} AllHeard(s: Settings, m: Monitor, actions: seq<Action>, listener: Listener)
    requires listener in m.listeners && Unsubscribe(listener) !in actions
    ensures |m.notices| <= |Perform(s, m, actions).notices|
    ensures forall i :: |m.notices| <= i < |Perform(s, m, actions).notices| ==>
              listener in Perform(s, m, actions).notices[i].listeners
  {
    hide Act, KeyOf;
    if actions == [] {
    } else {
      var last := actions[|actions| - 1];
      ListenerAgrees(s, m, actions[..|actions| - 1], listener);
      AllHeard(s, m, actions[..|actions| - 1], listener);
      ActNotices(s, Perform(s, m, actions[..|actions| - 1]), last);
    }
  }

  /** Whatever the order in which the notices of a run reach a listener, it ends up knowing the current state if and only
      if the one that reaches it last carries what the last one in lock order carries. */
  lemma DeliveryAgreesIff(s: Settings, m: Monitor, actions: seq<Action>, listener: Listener, delivered: seq<Notice>)
    requires listener in m.listeners && Unsubscribe(listener) !in actions
    requires |m.notices| < |Perform(s, m, actions).notices|
    requires multiset(delivered) == multiset(Perform(s, m, actions).notices[|m.notices|..])
    ensures var end := Perform(s, m, actions);
            && delivered != []
            && (Known(listener, KeyOf(m.core.snap), delivered) == KeyOf(end.core.snap)
                <==> KeyOf(delivered[|delivered| - 1].after) == KeyOf(end.notices[|end.notices| - 1].after))
  {
    hide KeyOf, Perform;
    var end := Perform(s, m, actions);
    var heard := end.notices[|m.notices|..];
    ListenerAgrees(s, m, actions, listener);
    AllHeard(s, m, actions, listener);
    assert |delivered| == |heard| by { assert |multiset(delivered)| == |multiset(heard)|; }
    var last := delivered[|delivered| - 1];
    assert last in multiset(delivered);
    assert last in heard;
    var i :| 0 <= i < |heard| && heard[i] == last;
    assert end.notices[|m.notices| + i] == last && listener in last.listeners;
    assert heard[|heard| - 1] == end.notices[|end.notices| - 1];
  }
}
