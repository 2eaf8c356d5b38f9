// Showing only what is new (teams.py, `fetch_chat_messages_cb` and `fetch_channel_messages_cb`): a cursor over a window
// that slides along an append-only log of messages.
module MessageCursor {
  import opened Prelude

  /** A message of the service; only those of type "message" are a user's. */
  datatype Message = Message(id: string, user: bool)

  function Reverse(s: seq<Message>): seq<Message>
  {
    if s == [] then [] else Reverse(s[1..]) + [s[0]]
  }

  function Users(s: seq<Message>): (users: seq<Message>)
  {
    if s == [] then []
    else if s[|s| - 1].user then Users(s[..|s| - 1]) + [s[|s| - 1]]
    else Users(s[..|s| - 1])
  }

  /** The first place of an id, as the search loop finds it; |s| when it is not there. */
  function PlaceOf(s: seq<Message>, id: string): (place: nat)
    ensures place <= |s|
    ensures place < |s| ==> s[place].id == id
    ensures forall i :: 0 <= i < place ==> s[i].id != id
  {
    if s == [] then 0 else if s[0].id == id then 0 else 1 + PlaceOf(s[1..], id)
  }

  /** What one batch (newest first) shows, given the last known id ("" before the first one). */
  function Shown(lastKnown: string, batch: seq<Message>): seq<Message>
  {
    var users := Users(Reverse(batch));
    if lastKnown == "" then users
    else if PlaceOf(users, lastKnown) < |users| then users[PlaceOf(users, lastKnown) + 1..]
    else []
  }

  function NewLast(lastKnown: string, batch: seq<Message>): string
  {
    var users := Users(Reverse(batch));
    if users == [] then lastKnown else users[|users| - 1].id
  }

  class Conversation {
    var lastMessageId: string

    constructor ()
      ensures lastMessageId == ""
    {
      lastMessageId := "";
    }

    /** The part of both callbacks after the batch is decoded; the result is what is rendered, in order. */
    method OnBatch(messages: seq<Message>) returns (shown: seq<Message>)
      modifies this
      ensures shown == Shown(old(lastMessageId), messages)
      ensures lastMessageId == NewLast(old(lastMessageId), messages)
    {
      var lastKnownId := lastMessageId;
      var userMessages := Users(Reverse(messages));
      if lastKnownId != "" {
        var foundIdx := -1;
        var i := 0;
        while i < |userMessages|
          invariant 0 <= i <= |userMessages| && foundIdx == -1
          invariant forall j :: 0 <= j < i ==> userMessages[j].id != lastKnownId
        {
          if userMessages[i].id == lastKnownId {
            foundIdx := i;
            break;
          }
          i := i + 1;
        }
        shown := if foundIdx >= 0 then userMessages[foundIdx + 1..] else [];
      } else {
        shown := userMessages;
      }
      if userMessages != [] {
        lastMessageId := userMessages[|userMessages| - 1].id;
      }
    }
  }

  // ----- The log and its windows -----

  ghost predicate GoodLog(log: seq<Message>)
  {
    && (forall i :: 0 <= i < |log| ==> log[i].id != "")
    && (forall i, j :: 0 <= i < j < |log| ==> log[i].id != log[j].id)
  }

  /** A poll sees the log from `from` up to `to`, where the log ended when the server took the batch. */
  datatype Window = Window(from: nat, to: nat)

  ghost predicate GoodWindows(log: seq<Message>, polls: seq<Window>)
  {
    && (forall k :: 0 <= k < |polls| ==> polls[k].from <= polls[k].to <= |log|)
    && (forall k :: 1 <= k < |polls| ==> polls[k - 1].to <= polls[k].to)
  }

  function BatchOf(log: seq<Message>, w: Window): seq<Message>
    requires w.from <= w.to <= |log|
  {
    Reverse(log[w.from..w.to])
  }

  datatype Client = Client(lastKnown: string, rendered: seq<Message>)

  ghost function Poll(log: seq<Message>, polls: seq<Window>): Client
    requires GoodWindows(log, polls)
  {
    if polls == [] then Client("", [])
    else
      var before := Poll(log, polls[..|polls| - 1]);
      var batch := BatchOf(log, polls[|polls| - 1]);
      Client(NewLast(before.lastKnown, batch), before.rendered + Shown(before.lastKnown, batch))
  }

  // ----- The same in terms of places in the log -----

  /** The places of the user messages from a up to b, in order. */
  function Places(log: seq<Message>, a: nat, b: nat): (ps: seq<nat>)
    requires a <= b <= |log|
    ensures forall i :: 0 <= i < |ps| ==> a <= ps[i] < b && log[ps[i]].user
  {
    if a == b then []
    else if log[b - 1].user then Places(log, a, b - 1) + [b - 1]
    else Places(log, a, b - 1)
  }

  function At(log: seq<Message>, ps: seq<nat>): (s: seq<Message>)
    requires forall i :: 0 <= i < |ps| ==> ps[i] < |log|
    ensures |s| == |ps|
  {
    seq(|ps|, i requires 0 <= i < |ps| => log[ps[i]])
  }

  datatype Tracker = Tracker(last: Option<nat>, shown: seq<nat>)

  /** What one window shows: everything the first time, then what follows the last known place, or nothing when that
      place is not in the window. */
  function Fresh(log: seq<Message>, last: Option<nat>, w: Window): (ps: seq<nat>)
    requires w.from <= w.to <= |log|
  {
    if last.None? then Places(log, w.from, w.to)
    else if w.from <= last.value < w.to then Places(log, last.value + 1, w.to)
    else []
  }

  function LastPlace(log: seq<Message>, last: Option<nat>, w: Window): Option<nat>
    requires w.from <= w.to <= |log|
  {
    var ps := Places(log, w.from, w.to);
    if ps == [] then last else Some(ps[|ps| - 1])
  }

  function Polled(log: seq<Message>, t: Tracker, w: Window): Tracker
    requires w.from <= w.to <= |log|
  {
    Tracker(LastPlace(log, t.last, w), t.shown + Fresh(log, t.last, w))
  }

  ghost function Track(log: seq<Message>, polls: seq<Window>): Tracker
    requires GoodWindows(log, polls)
  {
    if polls == [] then Tracker(None, [])
    else
      var before, w := Track(log, polls[..|polls| - 1]), polls[|polls| - 1];
      Polled(log, before, w)
  }

  lemma {:induction false} ReverseAppend(a: seq<Message>, b: seq<Message>)
    ensures Reverse(a + b) == Reverse(b) + Reverse(a)
  {
    if a == [] {
      assert a + b == b;
    } else {
      assert (a + b)[1..] == a[1..] + b;
      ReverseAppend(a[1..], b);
    }
  }

  lemma {:induction false} ReverseTwice(s: seq<Message>)
    ensures Reverse(Reverse(s)) == s
  {
    if s == [] {
    } else {
      ReverseTwice(s[1..]);
      ReverseAppend(Reverse(s[1..]), [s[0]]);
      assert Reverse([s[0]]) == [s[0]];
    }
  }

  lemma {:induction false} UsersArePlaces(log: seq<Message>, a: nat, b: nat)
    requires a <= b <= |log|
    ensures Users(log[a..b]) == At(log, Places(log, a, b))
  {
    if a >= b {
    } else {
      UsersArePlaces(log, a, b - 1);
      assert log[a..b][..b - a - 1] == log[a..b - 1];
    }
  }

  lemma BatchUsers(log: seq<Message>, w: Window)
    requires w.from <= w.to <= |log|
    ensures Users(Reverse(BatchOf(log, w))) == At(log, Places(log, w.from, w.to))
  {
    ReverseTwice(log[w.from..w.to]);
    UsersArePlaces(log, w.from, w.to);
  }

  /** Cutting the places of a window at one of them. */
  lemma {:induction false} PlacesSplit(log: seq<Message>, a: nat, m: nat, b: nat)
    requires a <= m <= b <= |log|
    ensures Places(log, a, b) == Places(log, a, m) + Places(log, m, b)
  {
    if m >= b {
    } else {
      PlacesSplit(log, a, m, b - 1);
    }
  }

  lemma AtAppend(log: seq<Message>, a: seq<nat>, b: seq<nat>)
    requires forall i :: 0 <= i < |a| ==> a[i] < |log|
    requires forall i :: 0 <= i < |b| ==> b[i] < |log|
    ensures At(log, a + b) == At(log, a) + At(log, b)
  {
  }

  /** The places of a window around one of them. */
  lemma PlacesAround(log: seq<Message>, a: nat, p: nat, b: nat)
    requires a <= p < b <= |log| && log[p].user
    ensures Places(log, a, b) == Places(log, a, p) + [p] + Places(log, p + 1, b)
  {
    PlacesSplit(log, a, p + 1, b);
  }

  lemma PlaceInMiddle(before: seq<Message>, m: Message, after: seq<Message>)
    requires forall i :: 0 <= i < |before| ==> before[i].id != m.id
    ensures PlaceOf(before + [m] + after, m.id) == |before|
    ensures (before + [m] + after)[|before| + 1..] == after
  {
    var s := before + [m] + after;
    assert s[|before|] == m;
    assert forall i :: 0 <= i < |before| ==> s[i] == before[i];
  }

  lemma FindPlace(log: seq<Message>, w: Window, p: nat)
    requires GoodLog(log) && w.from <= p < w.to <= |log| && log[p].user
    ensures var users := At(log, Places(log, w.from, w.to));
            var k := PlaceOf(users, log[p].id);
            k < |users| && users[k + 1..] == At(log, Places(log, p + 1, w.to))
  {
    var before, after := Places(log, w.from, p), Places(log, p + 1, w.to);
    PlacesAround(log, w.from, p, w.to);
    AtAppend(log, before + [p], after);
    AtAppend(log, before, [p]);
    assert At(log, [p]) == [log[p]];
    PlaceInMiddle(At(log, before), log[p], At(log, after));
  }

  lemma MissPlace(log: seq<Message>, w: Window, p: nat)
    requires GoodLog(log) && w.from <= w.to <= |log| && p < |log| && !(w.from <= p < w.to)
    ensures var users := At(log, Places(log, w.from, w.to)); PlaceOf(users, log[p].id) == |users|
  {
    var ps := Places(log, w.from, w.to);
    assert forall k :: 0 <= k < |ps| ==> log[ps[k]].id != log[p].id;
  }

  /** The client's id always names the tracked place, and its rendered messages are the tracked ones. */
  ghost predicate Mirrors(log: seq<Message>, c: Client, t: Tracker)
  {
    && (forall i :: 0 <= i < |t.shown| ==> t.shown[i] < |log|)
    && c.rendered == At(log, t.shown)
    && (t.last.None? ==> c.lastKnown == "")
    && (t.last.Some? ==> t.last.value < |log| && log[t.last.value].user && c.lastKnown == log[t.last.value].id)
  }

  lemma ShownIsFresh(log: seq<Message>, lastKnown: string, last: Option<nat>, w: Window)
    requires GoodLog(log) && w.from <= w.to <= |log|
    requires last.None? ==> lastKnown == ""
    requires last.Some? ==> last.value < |log| && log[last.value].user && lastKnown == log[last.value].id
    ensures Shown(lastKnown, BatchOf(log, w)) == At(log, Fresh(log, last, w))
  {
    BatchUsers(log, w);
    if last.Some? {
      if w.from <= last.value < w.to {
        FindPlace(log, w, last.value);
      } else {
        MissPlace(log, w, last.value);
      }
    }
  }

  lemma NewLastIsPlace(log: seq<Message>, lastKnown: string, last: Option<nat>, w: Window)
    requires w.from <= w.to <= |log|
    ensures var ps := Places(log, w.from, w.to);
            NewLast(lastKnown, BatchOf(log, w)) == if ps == [] then lastKnown else log[ps[|ps| - 1]].id
  {
    BatchUsers(log, w);
  }

  lemma MirrorsStep(log: seq<Message>, c: Client, t: Tracker, w: Window)
    requires GoodLog(log) && w.from <= w.to <= |log| && Mirrors(log, c, t)
    ensures var batch := BatchOf(log, w);
            Mirrors(log, Client(NewLast(c.lastKnown, batch), c.rendered + Shown(c.lastKnown, batch)),
                    Polled(log, t, w))
  {
    ShownIsFresh(log, c.lastKnown, t.last, w);
    NewLastIsPlace(log, c.lastKnown, t.last, w);
    AtAppend(log, t.shown, Fresh(log, t.last, w));
  }

  lemma {:induction false} ClientMirrorsTracker(log: seq<Message>, polls: seq<Window>)
    requires GoodLog(log) && GoodWindows(log, polls)
    ensures Mirrors(log, Poll(log, polls), Track(log, polls))
  {
    if polls == [] {
    } else {
      var n := |polls| - 1;
      ClientMirrorsTracker(log, polls[..n]);
      MirrorsStep(log, Poll(log, polls[..n]), Track(log, polls[..n]), polls[n]);
    }
  }

  // ----- No repeat, no reorder, nothing missed -----

  ghost predicate Increasing(ps: seq<nat>)
  {
    forall i, j :: 0 <= i < j < |ps| ==> ps[i] < ps[j]
  }

  ghost predicate Ordered(log: seq<Message>, t: Tracker, to: nat)
  {
    && Increasing(t.shown)
    && (forall i :: 0 <= i < |t.shown| ==> t.shown[i] < |log| && log[t.shown[i]].user)
    && (t.last.None? ==> t.shown == [])
    && (t.last.Some? ==> t.last.value < to && t.last.value < |log| && log[t.last.value].user)
    && (t.last.Some? ==> forall i :: 0 <= i < |t.shown| ==> t.shown[i] <= t.last.value)
  }

  lemma {:induction false} PlacesIncreasing(log: seq<Message>, a: nat, b: nat)
    requires a <= b <= |log|
    ensures Increasing(Places(log, a, b))
  {
    if a >= b {
    } else {
      PlacesIncreasing(log, a, b - 1);
    }
  }

  lemma IncreasingAppend(a: seq<nat>, b: seq<nat>, m: nat)
    requires Increasing(a) && Increasing(b)
    requires (forall i :: 0 <= i < |a| ==> a[i] <= m) && (forall i :: 0 <= i < |b| ==> m < b[i])
    ensures Increasing(a + b)
  {
  }

  lemma LastIsLargest(ps: seq<nat>)
    requires Increasing(ps)
    ensures forall i :: 0 <= i < |ps| ==> ps[i] <= ps[|ps| - 1]
  {
  }

  /** Where one window leaves the tracked place. */
  lemma LastPlaceStep(log: seq<Message>, last: Option<nat>, w: Window)
    requires w.from <= w.to <= |log|
    requires last.Some? ==> last.value < w.to && log[last.value].user
    ensures var now, added := LastPlace(log, last, w), Fresh(log, last, w);
            && (now.Some? ==> now.value < w.to && log[now.value].user)
            && (last.Some? ==> now.Some? && last.value <= now.value)
            && (added != [] ==> now.Some? && added[|added| - 1] <= now.value)
            && (last.Some? ==> forall i :: 0 <= i < |added| ==> last.value < added[i])
            && Increasing(added)
  {
    if last.None? {
      PlacesIncreasing(log, w.from, w.to);
    } else if w.from <= last.value {
      PlacesIncreasing(log, last.value + 1, w.to);
    }
    if last.Some? && w.from <= last.value {
      PlacesAround(log, w.from, last.value, w.to);
    }
  }

  /** More places, all beyond the tracked one, keep the order. */
  lemma OrderedAppend(log: seq<Message>, t: Tracker, to: nat, now: Option<nat>, added: seq<nat>, end: nat)
    requires Ordered(log, t, to) && Increasing(added) && end <= |log|
    requires forall i :: 0 <= i < |added| ==> added[i] < |log| && log[added[i]].user
    requires t.last.Some? ==> now.Some? && t.last.value <= now.value
    requires t.last.Some? ==> forall i :: 0 <= i < |added| ==> t.last.value < added[i]
    requires added != [] ==> now.Some? && added[|added| - 1] <= now.value
    requires now.Some? ==> now.value < end && log[now.value].user
    ensures Ordered(log, Tracker(now, t.shown + added), end)
  {
    hide Increasing;
    LastIsLargest(added);
    if t.last.Some? {
      IncreasingAppend(t.shown, added, t.last.value);
    } else {
      assert t.shown + added == added;
    }
  }

  lemma OrderedStep(log: seq<Message>, t: Tracker, to: nat, w: Window)
    requires to <= w.to <= |log| && w.from <= w.to && Ordered(log, t, to)
    ensures Ordered(log, Polled(log, t, w), w.to)
  {
    LastPlaceStep(log, t.last, w);
    OrderedAppend(log, t, to, LastPlace(log, t.last, w), Fresh(log, t.last, w), w.to);
  }

  lemma {:induction false} TrackerOrdered(log: seq<Message>, polls: seq<Window>)
    requires GoodWindows(log, polls)
    ensures Ordered(log, Track(log, polls), if polls == [] then 0 else polls[|polls| - 1].to)
  {
    if polls == [] {
    } else {
      var n := |polls| - 1;
      TrackerOrdered(log, polls[..n]);
      OrderedStep(log, Track(log, polls[..n]), if n == 0 then 0 else polls[n - 1].to, polls[n]);
    }
  }

  /** The rendered messages are a strictly increasing subsequence of the log's user messages: no repeat, no reorder. */
  lemma RenderedIncreasing(log: seq<Message>, polls: seq<Window>) returns (places: seq<nat>)
    requires GoodLog(log) && GoodWindows(log, polls)
    ensures Increasing(places) && forall i :: 0 <= i < |places| ==> places[i] < |log| && log[places[i]].user
    ensures Poll(log, polls).rendered == At(log, places)
  {
    ClientMirrorsTracker(log, polls);
    TrackerOrdered(log, polls);
    places := Track(log, polls).shown;
  }

  /** Everything a user wrote from `start` up to the end of the last window has been shown. */
  ghost predicate Complete(log: seq<Message>, t: Tracker, start: nat, to: nat)
    requires start <= to <= |log|
  {
    t.shown == Places(log, start, to) && t.shown != [] && t.last == Some(t.shown[|t.shown| - 1])
  }

  lemma {:induction false} PlacesEmptyPrefix(log: seq<Message>, a: nat, b: nat)
    requires a <= b <= |log|
    ensures Places(log, a, b) != [] ==>
              var ps := Places(log, a, b); Places(log, ps[|ps| - 1] + 1, b) == [] && log[ps[|ps| - 1]].user
  {
    if a < b && !log[b - 1].user {
      PlacesEmptyPrefix(log, a, b - 1);
    }
  }

  lemma CompleteRest(log: seq<Message>, t: Tracker, start: nat, to: nat, end: nat)
    requires start <= to <= end <= |log| && Complete(log, t, start, to)
    ensures t.last.value < to && log[t.last.value].user
    ensures Places(log, start, end) == t.shown + Places(log, t.last.value + 1, end)
  {
    PlacesEmptyPrefix(log, start, to);
    PlacesSplit(log, start, to, end);
    PlacesSplit(log, t.last.value + 1, to, end);
  }

  lemma PollHolds(log: seq<Message>, t: Tracker, start: nat, to: nat, w: Window)
    requires start <= to <= w.to <= |log| && w.from <= w.to && Complete(log, t, start, to) && w.from <= t.last.value
    ensures Complete(log, Polled(log, t, w), start, w.to)
  {
    CompleteRest(log, t, start, to, w.to);
    var p := t.last.value;
    var before, rest := Places(log, w.from, p), Places(log, p + 1, w.to);
    PlacesAround(log, w.from, p, w.to);
    var ps := before + [p] + rest;
    assert ps[|ps| - 1] == if rest == [] then p else rest[|rest| - 1];
    assert Fresh(log, t.last, w) == rest;
    assert LastPlace(log, t.last, w) == Some(ps[|ps| - 1]);
  }

  lemma PollNothing(log: seq<Message>, t: Tracker, w: Window)
    requires w.from <= w.to <= |log| && t.last.Some? && t.last.value < w.from && Places(log, w.from, w.to) == []
    ensures Polled(log, t, w) == t
  {
    assert t.shown + [] == t.shown;
  }

  lemma NothingNew(log: seq<Message>, t: Tracker, start: nat, to: nat, end: nat)
    requires start <= to <= end <= |log| && Complete(log, t, start, to)
    requires t.last.value < end && Places(log, t.last.value + 1, end) == []
    ensures Complete(log, t, start, end)
  {
    CompleteRest(log, t, start, to, end);
    assert t.shown + [] == t.shown;
  }

  lemma PollQuiet(log: seq<Message>, t: Tracker, start: nat, to: nat, w: Window)
    requires start <= to <= w.to <= |log| && w.from <= w.to && Complete(log, t, start, to) && t.last.value < w.from
    requires Places(log, t.last.value + 1, w.to) == []
    ensures Complete(log, Polled(log, t, w), start, w.to)
  {
    hide Places, Complete, Polled;
    NothingNew(log, t, start, to, w.to);
    PlacesSplit(log, t.last.value + 1, w.from, w.to);
    PollNothing(log, t, w);
  }

  /** One more poll misses nothing exactly when its window still holds the last known message, or there is nothing
      new: what scrolled past is never shown. */
  lemma PollMissesNothingIff(log: seq<Message>, t: Tracker, start: nat, to: nat, w: Window)
    requires start <= to <= w.to <= |log| && w.from <= w.to && Complete(log, t, start, to)
    ensures Complete(log, Polled(log, t, w), start, w.to) <==>
            w.from <= t.last.value || Places(log, t.last.value + 1, w.to) == []
  {
    if w.from <= t.last.value {
      PollHolds(log, t, start, to, w);
    } else if Places(log, t.last.value + 1, w.to) == [] {
      PollQuiet(log, t, start, to, w);
    } else {
      CompleteRest(log, t, start, to, w.to);
      assert |Polled(log, t, w).shown| == |t.shown| < |Places(log, start, w.to)|;
    }
  }

  /** The window of poll k still holds the last message known before it. */
  ghost predicate HoldsAt(log: seq<Message>, polls: seq<Window>, k: nat)
    requires GoodWindows(log, polls) && k < |polls|
  {
    var t := Track(log, polls[..k]);
    t.last.Some? && polls[k].from <= t.last.value
  }

  /** From poll f on every window still holds the last message known before it. */
  ghost predicate Overlapping(log: seq<Message>, polls: seq<Window>, f: nat)
    requires GoodWindows(log, polls)
  {
    forall k :: f < k < |polls| ==> HoldsAt(log, polls, k)
  }

  /** No user message in the windows before poll f. */
  ghost predicate QuietBefore(log: seq<Message>, polls: seq<Window>, f: nat)
    requires GoodWindows(log, polls) && f <= |polls|
  {
    forall k :: 0 <= k < f ==> Places(log, polls[k].from, polls[k].to) == []
  }

  lemma TrackStep(log: seq<Message>, polls: seq<Window>)
    requires GoodWindows(log, polls) && polls != []
    ensures var n := |polls| - 1; Track(log, polls) == Polled(log, Track(log, polls[..n]), polls[n])
  {
    hide Polled;
  }

  lemma QuietPoll(log: seq<Message>, w: Window)
    requires w.from <= w.to <= |log| && Places(log, w.from, w.to) == []
    ensures Polled(log, Tracker(None, []), w) == Tracker(None, [])
  {
    hide Places;
  }

  lemma QuietFront(log: seq<Message>, polls: seq<Window>, f: nat, n: nat)
    requires GoodWindows(log, polls) && f <= n <= |polls| && QuietBefore(log, polls, f)
    ensures QuietBefore(log, polls[..n], f)
  {
    hide Places;
    var front := polls[..n];
    forall k | 0 <= k < f ensures Places(log, front[k].from, front[k].to) == [] {
      assert front[k] == polls[k];
    }
  }

  lemma {:induction false} QuietTrack(log: seq<Message>, polls: seq<Window>)
    requires GoodWindows(log, polls) && QuietBefore(log, polls, |polls|)
    ensures Track(log, polls) == Tracker(None, [])
  {
    if polls == [] {
    } else {
      hide Places, Polled, Track;
      var n := |polls| - 1;
      QuietFront(log, polls, n, n);
      QuietTrack(log, polls[..n]);
      QuietPoll(log, polls[n]);
      TrackStep(log, polls);
    }
  }

  lemma OverlappingFront(log: seq<Message>, polls: seq<Window>, f: nat)
    requires GoodWindows(log, polls) && f < |polls| - 1 && Overlapping(log, polls, f) && QuietBefore(log, polls, f)
    ensures var n := |polls| - 1;
            Overlapping(log, polls[..n], f) && QuietBefore(log, polls[..n], f) && HoldsAt(log, polls, n)
  {
    var front := polls[..|polls| - 1];
    forall k | f < k < |front|
      ensures HoldsAt(log, front, k)
    {
      assert HoldsAt(log, polls, k);
      assert front[..k] == polls[..k] && front[k] == polls[k];
    }
    QuietFront(log, polls, f, |polls| - 1);
  }

  lemma FirstPollComplete(log: seq<Message>, w: Window)
    requires w.from <= w.to <= |log| && Places(log, w.from, w.to) != []
    ensures Complete(log, Polled(log, Tracker(None, []), w), w.from, w.to)
  {
    assert [] + Places(log, w.from, w.to) == Places(log, w.from, w.to);
  }

  lemma {:induction false} OverlappingComplete(log: seq<Message>, polls: seq<Window>, f: nat)
    requires GoodWindows(log, polls) && f < |polls| && Overlapping(log, polls, f) && QuietBefore(log, polls, f)
    requires Places(log, polls[f].from, polls[f].to) != []
    ensures polls[f].from <= polls[|polls| - 1].to
    ensures Complete(log, Track(log, polls), polls[f].from, polls[|polls| - 1].to)
    decreases |polls|
  {
    hide Places, Complete, HoldsAt, Track, Polled, QuietBefore, Overlapping;
    var n := |polls| - 1;
    var front := polls[..n];
    TrackStep(log, polls);
    if n == f {
      QuietFront(log, polls, f, n);
      QuietTrack(log, front);
      FirstPollComplete(log, polls[n]);
    } else {
      OverlappingFront(log, polls, f);
      OverlappingComplete(log, front, f);
      HeldPlace(log, polls, n);
      PollHolds(log, Track(log, front), polls[f].from, front[n - 1].to, polls[n]);
    }
  }

  lemma HeldPlace(log: seq<Message>, polls: seq<Window>, n: nat)
    requires GoodWindows(log, polls) && n < |polls| && HoldsAt(log, polls, n)
    ensures var t := Track(log, polls[..n]); t.last.Some? && polls[n].from <= t.last.value
  {
    hide Track;
  }

  /** Whatever polls came before it: from the first window that holds a user message on, everything is shown, each once
      and in order, while every later batch still holds the last known message. */
  lemma NothingMissed(log: seq<Message>, polls: seq<Window>, f: nat)
    requires GoodLog(log) && GoodWindows(log, polls) && f < |polls|
    requires QuietBefore(log, polls, f) && Places(log, polls[f].from, polls[f].to) != []
    requires Overlapping(log, polls, f)
    ensures polls[f].from <= polls[|polls| - 1].to
    ensures Poll(log, polls).rendered == Users(log[polls[f].from..polls[|polls| - 1].to])
  {
    hide Places, Track, QuietBefore, Overlapping;
    OverlappingComplete(log, polls, f);
    ClientMirrorsTracker(log, polls);
    UsersArePlaces(log, polls[f].from, polls[|polls| - 1].to);
  }

  /** Without a user message in any window nothing is shown. */
  lemma NothingToShow(log: seq<Message>, polls: seq<Window>)
    requires GoodLog(log) && GoodWindows(log, polls) && QuietBefore(log, polls, |polls|)
    ensures Poll(log, polls) == Client("", [])
  {
    hide QuietBefore, Track;
    QuietTrack(log, polls);
    ClientMirrorsTracker(log, polls);
  }
}
