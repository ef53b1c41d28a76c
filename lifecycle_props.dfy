/** Properties of the lifecycle steps: each step keeps the invariant, and
    the promises of `add`, `render`, the timer callbacks, the listeners,
    `closeByMessageImmediately` and `destroy`. */
module LifecycleProps {
  import opened JsValues
  import opened Notices
  import opened Lifecycle

  // ---------------------------------------------------------------------
  // add and render

  /** A rejected message leaves every table as it was: nothing queued, no
      timer armed, no active entry, no id consumed. */
  lemma AddRejected(s: State, message: Value, severity: Value, duration: Value, closable: Value)
    requires !message.Str? || (forall i :: 0 <= i < |message.s| ==> IsWhitespace(message.s[i]))
    ensures AddStep(s, message, severity, duration, closable) == s
  {
  }

  /** An accepted message becomes one note under a fresh id whose reveal
      timer is armed, with delay 0, and recorded in `pendingTimers`;
      nothing else changes, and the queue is empty again afterwards. */
  lemma AddAccepted(s: State, message: Value, severity: Value, duration: Value, closable: Value)
    requires Valid(s)
    requires MakeNote(s.nextId, message, severity, duration, closable).Some?
    ensures var n := MakeNote(s.nextId, message, severity, duration, closable).value;
            var r := AddStep(s, message, severity, duration, closable);
            && n.id !in s.pending && n.id !in s.active
            && r.queue == []
            && r.pending == s.pending[n.id := s.nextHandle]
            && s.nextHandle !in s.timers
            && r.timers == s.timers[s.nextHandle := Timer(Reveal, s.nextElem, n, 0.0)]
            && r.active == s.active && r.hover == s.hover && r.closeButtons == s.closeButtons
            && r.nextId == s.nextId + 1 && r.nextHandle == s.nextHandle + 1
            && r.nextElem == s.nextElem + 1
  {
    var n := MakeNote(s.nextId, message, severity, duration, closable).value;
    var s1 := s.(queue := s.queue + [n], nextId := s.nextId + 1);
    assert s1.queue == [n];
    assert CreateAll(s1, s1.queue, 1) == CreateNoticeStep(s1, n, 0);
  }

  /** The state `add` leaves after accepting note `n`. */
  function Enqueued(s: State, n: Note): State {
    s.(pending := s.pending[n.id := s.nextHandle],
       timers := s.timers[s.nextHandle := Timer(Reveal, s.nextElem, n, 0.0)],
       nextId := s.nextId + 1, nextHandle := s.nextHandle + 1, nextElem := s.nextElem + 1)
  }

  lemma EnqueuedValid(s: State, n: Note)
    requires Valid(s) && n.id == s.nextId
    ensures Valid(Enqueued(s, n))
  {
    var r := Enqueued(s, n);
    forall h | h in r.timers && r.timers[h].purpose == AutoDismiss
      ensures Dismissable(r, r.timers[h].note)
    {
      assert h != s.nextHandle && h in s.timers;
      assert Dismissable(s, s.timers[h].note);
    }
    forall h | h in r.timers && r.timers[h].purpose == Reveal
      ensures r.timers[h].note.id in r.pending && r.pending[r.timers[h].note.id] == h
    {
      if h != s.nextHandle {
        assert s.timers[h].note.id in s.pending;
      }
    }
    forall e | e in r.hover
      ensures Dismissable(r, r.hover[e].note)
    {
      assert Dismissable(s, s.hover[e].note);
    }
  }

  lemma AddPreservesValid(s: State, message: Value, severity: Value, duration: Value, closable: Value)
    requires Valid(s)
    ensures Valid(AddStep(s, message, severity, duration, closable))
  {
    var r := AddStep(s, message, severity, duration, closable);
    var made := MakeNote(s.nextId, message, severity, duration, closable);
    if made.Some? {
      AddAccepted(s, message, severity, duration, closable);
      assert r == Enqueued(s, made.value);
      EnqueuedValid(s, made.value);
    }
  }

  ghost predicate DistinctIds(q: seq<Note>) {
    forall i, j :: 0 <= i < j < |q| ==> q[i].id != q[j].id
  }

  /** After `k` iterations of the `forEach` of `render` only the timer
      table, the pending map and the element and handle counters have
      changed, each counter by `k`. */
  lemma {:induction false} CreateAllKeeps(s: State, q: seq<Note>, k: nat)
    requires k <= |q|
    ensures var r := CreateAll(s, q, k);
            && r.nextHandle == s.nextHandle + k && r.nextElem == s.nextElem + k
            && r.queue == s.queue && r.active == s.active && r.hover == s.hover
            && r.closeButtons == s.closeButtons && r.nextId == s.nextId
  {
    if k > 0 {
      CreateAllKeeps(s, q, k - 1);
      CreateNoticeEffect(CreateAll(s, q, k - 1), q[k - 1], k - 1);
    }
  }

  /** After `k` iterations, the i-th note of the batch (`i < k`) has a
      reveal timer of delay `i * 150` under handle `h0 + i`. */
  lemma {:induction false} CreateAllTimerAt(s: State, q: seq<Note>, k: nat, i: nat)
    requires i < k <= |q|
    ensures var r := CreateAll(s, q, k);
            && s.nextHandle + i in r.timers
            && r.timers[s.nextHandle + i] == Timer(Reveal, s.nextElem + i, q[i], (i as real) * StaggerMs)
  {
    var p := CreateAll(s, q, k - 1);
    CreateAllKeeps(s, q, k - 1);
    CreateNoticeEffect(p, q[k - 1], k - 1);
    if i < k - 1 {
      CreateAllTimerAt(s, q, k - 1, i);
    }
  }

  /** With distinct ids, after `k` iterations the i-th note of the batch
      (`i < k`) is recorded in `pendingTimers` under handle `h0 + i`. */
  lemma {:induction false} CreateAllPendingAt(s: State, q: seq<Note>, k: nat, i: nat)
    requires i < k <= |q| && DistinctIds(q)
    ensures var r := CreateAll(s, q, k);
            q[i].id in r.pending && r.pending[q[i].id] == s.nextHandle + i
  {
    var p := CreateAll(s, q, k - 1);
    CreateAllKeeps(s, q, k - 1);
    CreateNoticeEffect(p, q[k - 1], k - 1);
    if i < k - 1 {
      CreateAllPendingAt(s, q, k - 1, i);
    }
  }

  lemma CreateNoticeEffect(p: State, note: Note, index: nat)
    ensures var r := CreateNoticeStep(p, note, index);
            && r.timers == p.timers[p.nextHandle := Timer(Reveal, p.nextElem, note, (index as real) * StaggerMs)]
            && r.pending == p.pending[note.id := p.nextHandle]
            && r.nextHandle == p.nextHandle + 1 && r.nextElem == p.nextElem + 1
            && r.queue == p.queue && r.active == p.active && r.hover == p.hover
            && r.closeButtons == p.closeButtons && r.nextId == p.nextId
  {
  }

  /** `render` leaves the queue empty, and every note of the drained batch
      has a reveal timer of delay `index * 150` for its position `index`,
      recorded under its id in `pendingTimers`. */
  lemma RenderArmsEachNote(s: State)
    requires DistinctIds(s.queue)
    ensures var r := RenderStep(s);
            && r.queue == []
            && forall i :: 0 <= i < |s.queue| ==>
                 && s.queue[i].id in r.pending
                 && r.pending[s.queue[i].id] == s.nextHandle + i
                 && s.nextHandle + i in r.timers
                 && r.timers[s.nextHandle + i]
                    == Timer(Reveal, s.nextElem + i, s.queue[i], (i as real) * StaggerMs)
  {
    var q := s.queue;
    if |q| > 0 {
      var c := CreateAll(s, q, |q|);
      assert RenderStep(s) == c.(queue := []);
      forall i | 0 <= i < |q|
        ensures q[i].id in c.pending && c.pending[q[i].id] == s.nextHandle + i
        ensures s.nextHandle + i in c.timers
        ensures c.timers[s.nextHandle + i] == Timer(Reveal, s.nextElem + i, q[i], (i as real) * StaggerMs)
      {
        CreateAllPendingAt(s, q, |q|, i);
        CreateAllTimerAt(s, q, |q|, i);
      }
    }
  }

  // ---------------------------------------------------------------------
  // Timer callbacks

  /** Firing a note's reveal timer removes its `pendingTimers` entry and no
      other, makes its active entry from its type, message and duration,
      arms an auto-dismiss timer for it exactly when its duration is
      positive, and attaches the close listener exactly when it is
      closable. */
  lemma FireReveal(s: State, h: Handle)
    requires Valid(s) && h in s.timers && s.timers[h].purpose == Reveal
    ensures var t := s.timers[h];
            var n := t.note;
            var r := FireStep(s, h);
            && h !in r.timers
            && r.pending == s.pending - {n.id}
            && r.active == s.active[n.id := Entry(t.elem, n.severity, n.message, n.duration)]
            && ((exists g :: g in r.timers && r.timers[g].purpose == AutoDismiss && r.timers[g].note.id == n.id)
                <==> n.duration > 0.0)
            && (n.duration > 0.0 ==> && s.nextHandle in r.timers
                                     && r.timers[s.nextHandle] == Timer(AutoDismiss, t.elem, n, n.duration))
            && r.closeButtons == (if n.closable then s.closeButtons[t.elem := n.id] else s.closeButtons)
            && (forall g :: g in s.timers && g != h ==> g in r.timers && r.timers[g] == s.timers[g])
            && r.timers == (if n.duration > 0.0
                            then (s.timers - {h})[s.nextHandle := Timer(AutoDismiss, t.elem, n, n.duration)]
                            else s.timers - {h})
            && r.hover == (if n.duration > 0.0 then s.hover[t.elem := Hover(s.nextHandle, n)] else s.hover)
            && r.nextHandle == (if n.duration > 0.0 then s.nextHandle + 1 else s.nextHandle)
  {
    var t := s.timers[h];
    var n := t.note;
    var r := FireStep(s, h);
    assert n.id in s.pending;
    if n.duration <= 0.0 {
      assert r.timers == s.timers - {h};
      forall g | g in r.timers && r.timers[g].purpose == AutoDismiss
        ensures r.timers[g].note.id != n.id
      {
        assert Dismissable(s, s.timers[g].note);
      }
    } else {
      assert r.timers[s.nextHandle].note.id == n.id;
    }
  }

  /** Firing an auto-dismiss timer drops the active entry of its note's id
      and leaves every other entry as it was; when that id is already gone
      it changes no entry at all. */
  lemma FireAutoDismiss(s: State, h: Handle)
    requires h in s.timers && s.timers[h].purpose == AutoDismiss
    ensures var id := s.timers[h].note.id;
            var r := FireStep(s, h);
            && r.active == s.active - {id}
            && (forall k :: k in s.active && k != id ==> k in r.active && r.active[k] == s.active[k])
            && (id !in s.active ==> r.active == s.active)
            && r.timers == s.timers - {h} && r.pending == s.pending
  {
  }

  lemma FirePreservesValid(s: State, h: Handle)
    requires Valid(s)
    ensures Valid(FireStep(s, h))
  {
    if h in s.timers {
      match s.timers[h].purpose
      case AutoDismiss => FireAutoDismissPreservesValid(s, h);
      case Reveal => FireRevealPreservesValid(s, h);
    }
  }

  lemma FireAutoDismissPreservesValid(s: State, h: Handle)
    requires Valid(s) && h in s.timers && s.timers[h].purpose == AutoDismiss
    ensures Valid(FireStep(s, h))
  {
    var r := FireStep(s, h);
    forall g | g in r.timers && r.timers[g].purpose == AutoDismiss
      ensures Dismissable(r, r.timers[g].note)
    {
      assert Dismissable(s, s.timers[g].note);
    }
    forall e | e in r.hover
      ensures Dismissable(r, r.hover[e].note)
    {
      assert Dismissable(s, s.hover[e].note);
    }
  }

  lemma FireRevealPreservesValid(s: State, h: Handle)
    requires Valid(s) && h in s.timers && s.timers[h].purpose == Reveal
    ensures Valid(FireStep(s, h))
  {
    var t := s.timers[h];
    var n := t.note;
    var r := FireStep(s, h);
    assert n.id in s.pending && s.pending[n.id] == h;
    var armed := n.duration > 0.0;
    assert r.timers == if armed then (s.timers - {h})[s.nextHandle := Timer(AutoDismiss, t.elem, n, n.duration)]
                       else s.timers - {h};
    assert r.hover == if armed then s.hover[t.elem := Hover(s.nextHandle, n)] else s.hover;
    assert r.nextHandle == if armed then s.nextHandle + 1 else s.nextHandle;
    assert r.pending == s.pending - {n.id};
    assert r.active == s.active[n.id := Entry(t.elem, n.severity, n.message, n.duration)];
    assert r.nextId == s.nextId && r.queue == [];
    ShownTables(s, r, h, t.elem, n, armed);
  }

  lemma ShownTables(s: State, r: State, h: Handle, e: Elem, n: Note, armed: bool)
    requires Valid(s) && h in s.timers && s.timers[h].purpose == Reveal && s.timers[h].note == n
    requires n.id in s.pending && s.pending[n.id] == h
    requires armed == (n.duration > 0.0)
    requires r.timers == if armed then (s.timers - {h})[s.nextHandle := Timer(AutoDismiss, e, n, n.duration)]
                         else s.timers - {h}
    requires r.hover == if armed then s.hover[e := Hover(s.nextHandle, n)] else s.hover
    requires r.nextHandle == if armed then s.nextHandle + 1 else s.nextHandle
    requires r.pending == s.pending - {n.id}
    requires r.active == s.active[n.id := Entry(e, n.severity, n.message, n.duration)]
    requires r.nextId == s.nextId && r.queue == []
    ensures Valid(r)
  {
    forall g | g in r.timers && r.timers[g].purpose == AutoDismiss
      ensures Dismissable(r, r.timers[g].note)
    {
      if g != s.nextHandle || !armed {
        assert g in s.timers && r.timers[g] == s.timers[g];
        assert Dismissable(s, s.timers[g].note);
      }
    }
    forall g | g in r.timers && r.timers[g].purpose == Reveal
      ensures r.timers[g].note.id in r.pending && r.pending[r.timers[g].note.id] == g
    {
      assert g in s.timers && r.timers[g] == s.timers[g];
      assert s.timers[g].note.id != n.id;
    }
    forall k | k in r.hover
      ensures Dismissable(r, r.hover[k].note)
      ensures r.hover[k].original < r.nextHandle
      ensures r.hover[k].original in r.timers ==> r.timers[r.hover[k].original].purpose == AutoDismiss
    {
      if k != e || !armed {
        assert r.hover[k] == s.hover[k];
        assert Dismissable(s, s.hover[k].note);
      }
    }
    forall id | id in r.pending
      ensures id !in r.active && r.pending[id] in r.timers
      ensures r.timers[r.pending[id]] == s.timers[s.pending[id]]
    {
      assert s.pending[id] != h;
    }
  }

  /** A note stored with duration 0 is never dismissed by a timer: no
      callback removes its active entry, so it stays until it is closed
      explicitly. */
  lemma ZeroDurationStaysActive(s: State, h: Handle, id: Id)
    requires Valid(s) && id in s.active && s.active[id].duration == 0.0
    ensures id in FireStep(s, h).active && FireStep(s, h).active[id] == s.active[id]
  {
    if h in s.timers {
      var n := s.timers[h].note;
      if s.timers[h].purpose == AutoDismiss {
        assert Dismissable(s, n);
      } else {
        assert n.id in s.pending;
      }
    }
  }

  // ---------------------------------------------------------------------
  // Listeners

  /** mouseenter clears the auto-dismiss timer `showNotice` armed, and
      touches no other timer and no entry. */
  lemma MouseEnterClearsOriginal(s: State, e: Elem)
    requires e in s.hover
    ensures var r := MouseEnterStep(s, e);
            && s.hover[e].original !in r.timers
            && (forall g :: g in s.timers && g != s.hover[e].original ==> g in r.timers && r.timers[g] == s.timers[g])
            && r.active == s.active && r.pending == s.pending
  {
  }

  /** mouseleave restarts the countdown for the note's whole duration, the
      one stored in its active entry, rather than the time that was left. */
  lemma MouseLeaveRestartsFullDuration(s: State, e: Elem)
    requires Valid(s) && e in s.hover
    ensures var n := s.hover[e].note;
            var r := MouseLeaveStep(s, e);
            && s.nextHandle !in s.timers
            && r.timers == s.timers[s.nextHandle := Timer(AutoDismiss, e, n, n.duration)]
            && (n.id in s.active ==> r.timers[s.nextHandle].delay == s.active[n.id].duration)
            && r.active == s.active && r.pending == s.pending
  {
    assert Dismissable(s, s.hover[e].note);
  }

  /** The mouseenter listener only knows the first timer: after
      enter, leave, enter, the timer armed by the mouseleave is still
      armed, so the notice is dismissed while the pointer is over it. */
  lemma SecondEnterMissesLeaveTimer(s: State, e: Elem)
    requires Valid(s) && e in s.hover
    ensures var r := MouseEnterStep(MouseLeaveStep(MouseEnterStep(s, e), e), e);
            && s.nextHandle in r.timers
            && r.timers[s.nextHandle] == Timer(AutoDismiss, e, s.hover[e].note, s.hover[e].note.duration)
  {
    assert s.hover[e].original < s.nextHandle;
  }

  lemma MouseEnterPreservesValid(s: State, e: Elem)
    requires Valid(s)
    ensures Valid(MouseEnterStep(s, e))
  {
    if e in s.hover {
      var r := MouseEnterStep(s, e);
      forall id | id in r.pending
        ensures r.pending[id] in r.timers
      {
        assert s.timers[s.pending[id]].purpose == Reveal;
      }
    }
  }

  lemma MouseLeavePreservesValid(s: State, e: Elem)
    requires Valid(s)
    ensures Valid(MouseLeaveStep(s, e))
  {
    if e in s.hover {
      var r := MouseLeaveStep(s, e);
      assert Dismissable(s, s.hover[e].note);
      forall g | g in r.timers && r.timers[g].purpose == AutoDismiss
        ensures Dismissable(r, r.timers[g].note)
      {
        if g != s.nextHandle {
          assert Dismissable(s, s.timers[g].note);
        }
      }
      forall k | k in r.hover
        ensures Dismissable(r, r.hover[k].note)
      {
        assert Dismissable(s, s.hover[k].note);
      }
    }
  }

  /** A click on the close button drops that note's active entry, leaves
      the others, and removes the listener so that a second click does
      nothing. */
  lemma ClickCloseOnce(s: State, e: Elem)
    requires e in s.closeButtons
    ensures var id := s.closeButtons[e];
            var r := ClickCloseStep(s, e);
            && r.active == s.active - {id}
            && (forall k :: k in s.active && k != id ==> k in r.active && r.active[k] == s.active[k])
            && e !in r.closeButtons
            && ClickCloseStep(r, e) == r
            && r.timers == s.timers && r.pending == s.pending
  {
  }

  lemma ClickClosePreservesValid(s: State, e: Elem)
    requires Valid(s)
    ensures Valid(ClickCloseStep(s, e))
  {
    var r := ClickCloseStep(s, e);
    forall g | g in r.timers && r.timers[g].purpose == AutoDismiss
      ensures Dismissable(r, r.timers[g].note)
    {
      assert Dismissable(s, s.timers[g].note);
    }
    forall k | k in r.hover
      ensures Dismissable(r, r.hover[k].note)
    {
      assert Dismissable(s, s.hover[k].note);
    }
  }

  // ---------------------------------------------------------------------
  // closeByMessageImmediately

  /** The lookup of the pending-timer loop runs over the already filtered
      queue, so `closeByMessageImmediately` never clears a reveal timer
      and never touches `pendingTimers`. */
  lemma CloseByMessageNeverCancelsPending(s: State, m: string)
    ensures var r := CloseByMessageStep(s, m);
            r.pending == s.pending && r.timers == s.timers
  {
    var q := WithoutMessage(s.queue, m);
    forall id | id in s.pending
      ensures !Cancels(q, m, id)
    {
      FilteredLookupMisses(s.queue, m, id);
    }
    assert (set id | id in s.pending && Cancels(q, m, id)) == {};
    assert (set id | id in s.pending && Cancels(q, m, id) :: s.pending[id]) == {};
  }

  /** After `closeByMessageImmediately(m)` no queued note and no active
      entry carries `m`, and every note and entry with another message is
      still there, unchanged. */
  lemma CloseByMessageRemovesMatches(s: State, m: string)
    ensures var r := CloseByMessageStep(s, m);
            && (forall i :: 0 <= i < |r.queue| ==> r.queue[i].message != m)
            && (forall n :: n in s.queue && n.message != m ==> n in r.queue)
            && (forall id :: id in r.active ==> r.active[id].message != m)
            && (forall id :: id in s.active && s.active[id].message != m ==>
                  id in r.active && r.active[id] == s.active[id])
            && r.hover == s.hover && r.closeButtons == s.closeButtons
  {
    var r := CloseByMessageStep(s, m);
    forall i | 0 <= i < |r.queue|
      ensures r.queue[i].message != m
    {
      assert r.queue[i] in r.queue;
    }
  }

  /** What the quirk costs: a notice whose reveal timer is pending when it
      is cancelled by message still becomes active, with that message,
      when the timer fires. */
  lemma CloseThenRevealStillShows(s: State, m: string, h: Handle)
    requires Valid(s) && h in s.timers && s.timers[h].purpose == Reveal && s.timers[h].note.message == m
    ensures var n := s.timers[h].note;
            var r := FireStep(CloseByMessageStep(s, m), h);
            n.id in r.active && r.active[n.id].message == m
  {
    CloseByMessageNeverCancelsPending(s, m);
  }

  /** Between public operations the queue is empty, so the lookup of the
      pending-timer loop would find nothing even without the filter. */
  lemma ValidQueueLookupMisses(s: State, id: Id)
    requires Valid(s)
    ensures GetNoteById(s.queue, id).None?
  {
  }

  lemma CloseByMessagePreservesValid(s: State, m: string)
    requires Valid(s)
    ensures Valid(CloseByMessageStep(s, m))
  {
    var r := CloseByMessageStep(s, m);
    CloseByMessageNeverCancelsPending(s, m);
    assert r.queue == [];
    forall g | g in r.timers && r.timers[g].purpose == AutoDismiss
      ensures Dismissable(r, r.timers[g].note)
    {
      assert Dismissable(s, s.timers[g].note);
    }
    forall k | k in r.hover
      ensures Dismissable(r, r.hover[k].note)
    {
      assert Dismissable(s, s.hover[k].note);
    }
  }

  // ---------------------------------------------------------------------
  // destroy

  /** `destroy` empties the three collections and clears every reveal
      timer; the auto-dismiss timers, which it does not know about, stay
      armed. */
  lemma DestroyEffects(s: State)
    requires Valid(s)
    ensures var r := DestroyStep(s);
            && Valid(r)
            && r.queue == [] && r.active == map[] && r.pending == map[]
            && (forall h :: h in r.timers ==> r.timers[h].purpose == AutoDismiss)
            && (forall h :: h in s.timers && s.timers[h].purpose == AutoDismiss ==>
                  h in r.timers && r.timers[h] == s.timers[h])
  {
    var r := DestroyStep(s);
    forall h | h in s.timers && s.timers[h].purpose == Reveal
      ensures h !in r.timers
    {
      var id := s.timers[h].note.id;
      assert id in s.pending && s.pending[id] == h;
      assert h in s.pending.Values;
    }
  }

  /** A second `destroy` changes nothing further. */
  lemma DestroyIdempotent(s: State)
    ensures DestroyStep(DestroyStep(s)) == DestroyStep(s)
  {
    assert DestroyStep(s).pending.Values == {};
  }

  /** Once the collections are empty, no timer firing and no listener can
      bring a notice back: the active map and the pending map stay empty. */
  lemma EmptyStaysEmpty(s: State, h: Handle, e: Elem)
    requires Valid(s) && s.active == map[] && s.pending == map[]
    ensures FireStep(s, h).active == map[] && FireStep(s, h).pending == map[]
    ensures MouseEnterStep(s, e).active == map[] && MouseLeaveStep(s, e).active == map[]
    ensures ClickCloseStep(s, e).active == map[]
  {
    if h in s.timers {
      assert s.timers[h].purpose == AutoDismiss;
    }
  }
}
