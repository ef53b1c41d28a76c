/** The bookkeeping of `SecureNotification` as values: its three
    collections (the queue, `activeNotices`, `pendingTimers`), the table of
    armed `setTimeout` callbacks and the event listeners it attaches, with
    one step function per operation and per timer or event firing. The
    class in module Manager is proved to follow these steps. */
module Lifecycle {
  import opened JsValues
  import opened Notices

  /** A `setTimeout` handle. */
  type Handle = nat

  datatype Purpose = Reveal | AutoDismiss

  /** An armed callback: its purpose, the element and note its closure
      captured, and its delay in milliseconds. */
  datatype Timer = Timer(purpose: Purpose, elem: Elem, note: Note, delay: real)

  /** The hover listeners `showNotice` attaches to an element: mouseenter
      clears the auto-dismiss timer armed by `showNotice` (`original`);
      mouseleave arms a new one for `note`. */
  datatype Hover = Hover(original: Handle, note: Note)

  /** The reveal stagger per position in a render batch, in milliseconds. */
  const StaggerMs: real := 150.0

  datatype State = State(
    queue: seq<Note>,                 // notifications
    active: map<Id, Entry>,           // activeNotices
    pending: map<Id, Handle>,         // pendingTimers
    timers: map<Handle, Timer>,       // callbacks armed by this instance
    hover: map<Elem, Hover>,          // mouseenter / mouseleave listeners
    closeButtons: map<Elem, Id>,      // live click listeners of close buttons
    nextId: Id,
    nextHandle: Handle,
    nextElem: Elem)

  /** A freshly constructed instance. */
  const Initial: State := State([], map[], map[], map[], map[], map[], 0, 0, 0)

  /** What an auto-dismiss timer or a hover listener may refer to: a note
      with a positive duration that is no longer waiting to be revealed,
      whose active entry (while there is one) carries the same duration. */
  ghost predicate Dismissable(s: State, n: Note) {
    && n.duration > 0.0
    && n.id < s.nextId
    && n.id !in s.pending
    && (n.id in s.active ==> s.active[n.id].duration == n.duration)
  }

  /** The invariant of the three collections and the timer table. */
  ghost predicate Tables(s: State) {
    && (forall h :: h in s.timers ==> h < s.nextHandle)
    && (forall h :: h in s.timers && s.timers[h].purpose == Reveal ==>
          s.timers[h].note.id in s.pending && s.pending[s.timers[h].note.id] == h)
    && (forall h :: h in s.timers && s.timers[h].purpose == AutoDismiss ==>
          Dismissable(s, s.timers[h].note))
    && (forall id :: id in s.pending ==>
          && id < s.nextId
          && id !in s.active
          && s.pending[id] in s.timers
          && s.timers[s.pending[id]].purpose == Reveal
          && s.timers[s.pending[id]].note.id == id)
    && (forall id :: id in s.active ==> id < s.nextId)
    && (forall e :: e in s.hover ==>
          && s.hover[e].original < s.nextHandle
          && (s.hover[e].original in s.timers ==> s.timers[s.hover[e].original].purpose == AutoDismiss)
          && Dismissable(s, s.hover[e].note))
  }

  /** The invariant between public operations: the tables are consistent
      and the queue is empty, since every `add` drains it at once. */
  ghost predicate Valid(s: State) {
    Tables(s) && s.queue == []
  }

  lemma InitialValid()
    ensures Valid(Initial)
  {
  }

  // ---------------------------------------------------------------------
  // Steps

  /** `setTimeout`: arms `t` under the next handle. */
  function Arm(s: State, t: Timer): State {
    s.(timers := s.timers[s.nextHandle := t], nextHandle := s.nextHandle + 1)
  }

  /** `createNotice(note, index)`: a new element and a reveal timer of
      `index * 150` ms, recorded in `pendingTimers` under the note's id. */
  function CreateNoticeStep(s: State, note: Note, index: nat): State {
    var e := s.nextElem;
    var h := s.nextHandle;
    Arm(s.(nextElem := e + 1), Timer(Reveal, e, note, (index as real) * StaggerMs))
      .(pending := s.pending[note.id := h])
  }

  /** The `forEach` of `render` after `k` notes of the batch `q`. */
  function CreateAll(s: State, q: seq<Note>, k: nat): State
    requires k <= |q|
    decreases k
  {
    if k == 0 then s else CreateNoticeStep(CreateAll(s, q, k - 1), q[k - 1], k - 1)
  }

  /** `render`: a notice for each queued note, then the queue emptied. */
  function RenderStep(s: State): State {
    if |s.queue| == 0 then s else CreateAll(s, s.queue, |s.queue|).(queue := [])
  }

  /** `add`: nothing when the message is rejected; otherwise the new note
      is queued and the queue rendered. */
  function AddStep(s: State, message: Value, severity: Value, duration: Value, closable: Value): State {
    match MakeNote(s.nextId, message, severity, duration, closable)
    case None => s
    case Some(n) => RenderStep(s.(queue := s.queue + [n], nextId := s.nextId + 1))
  }

  /** `showNotice`: the active entry, then, for a positive duration, the
      auto-dismiss timer and the hover listeners, and for a closable note
      the close button's listener. */
  function ShowNoticeStep(s: State, e: Elem, n: Note): State {
    var s1 := s.(active := s.active[n.id := Entry(e, n.severity, n.message, n.duration)]);
    var s2 := if n.duration > 0.0
              then Arm(s1, Timer(AutoDismiss, e, n, n.duration)).(hover := s1.hover[e := Hover(s1.nextHandle, n)])
              else s1;
    if n.closable then s2.(closeButtons := s2.closeButtons[e := n.id]) else s2
  }

  /** The event loop runs the callback armed under `h`; a cleared handle
      never fires. A reveal callback shows the notice and then drops its
      `pendingTimers` entry; an auto-dismiss callback hides the element
      and drops the active entry. */
  function FireStep(s: State, h: Handle): State {
    if h !in s.timers then s
    else
      var t := s.timers[h];
      var s1 := s.(timers := s.timers - {h});
      match t.purpose
      case Reveal =>
        var s2 := ShowNoticeStep(s1, t.elem, t.note);
        s2.(pending := s2.pending - {t.note.id})
      case AutoDismiss => s1.(active := s1.active - {t.note.id})
  }

  /** mouseenter: clears the timer armed by `showNotice`, and only that one. */
  function MouseEnterStep(s: State, e: Elem): State {
    if e in s.hover then s.(timers := s.timers - {s.hover[e].original}) else s
  }

  /** mouseleave: arms a fresh auto-dismiss timer for the note's full
      duration. */
  function MouseLeaveStep(s: State, e: Elem): State {
    if e in s.hover then
      var n := s.hover[e].note;
      Arm(s, Timer(AutoDismiss, e, n, n.duration))
    else s
  }

  /** A click on the close button: hides the element, drops the active
      entry and removes the listener. */
  function ClickCloseStep(s: State, e: Elem): State {
    if e in s.closeButtons
    then s.(active := s.active - {s.closeButtons[e]}, closeButtons := s.closeButtons - {e})
    else s
  }

  /** The test of the pending-timer loop of `closeByMessageImmediately`
      for one id: the note that `getNoteById` finds in `q` carries `m`. */
  predicate Cancels(q: seq<Note>, m: string, id: Id) {
    var n := GetNoteById(q, id);
    n.Some? && n.value.message == m
  }

  /** `closeByMessageImmediately(m)`, as written: the queue is filtered
      first, the pending timers whose note the lookup finds in the
      filtered queue with message `m` are cleared, then every active entry
      carrying `m` is removed. */
  function CloseByMessageStep(s: State, m: string): State {
    var q := WithoutMessage(s.queue, m);
    var hit := set id | id in s.pending && Cancels(q, m, id);
    s.(queue := q,
       timers := s.timers - (set id | id in s.pending && Cancels(q, m, id) :: s.pending[id]),
       pending := s.pending - hit,
       active := RemoveMessage(s.active, m))
  }

  /** `destroy`: every timer recorded in `pendingTimers` is cleared and the
      three collections are emptied. */
  function DestroyStep(s: State): State {
    s.(queue := [], active := map[], pending := map[], timers := s.timers - s.pending.Values)
  }
}
