/** The class `SecureNotification` with its fields updated in place, and
    the static `SecureNotification.instance` as an explicit holder object.
    Each method is proved to follow the step of module Lifecycle that
    specifies it, and each public method to keep the invariant. */
module Manager {
  import opened JsValues
  import opened Notices
  import opened Lifecycle
  import opened LifecycleProps

  class SecureNotification {
    var notifications: seq<Note>
    var activeNotices: map<Id, Entry>
    var pendingTimers: map<Id, Handle>
    /** The callbacks this instance has armed with `setTimeout` and not
        yet seen fire or cleared. */
    var timers: map<Handle, Timer>
    /** The mouseenter / mouseleave listeners attached by `showNotice`. */
    var hover: map<Elem, Hover>
    /** The click listeners of close buttons not yet clicked. */
    var closeButtons: map<Elem, Id>
    var nextId: Id
    var nextHandle: Handle
    var nextElem: Elem

    /** The instance's state as a value. */
    function St(): State
      reads this
    {
      State(notifications, activeNotices, pendingTimers, timers, hover, closeButtons, nextId, nextHandle, nextElem)
    }

    ghost predicate Valid()
      reads this
    {
      Lifecycle.Valid(St())
    }

    /** The body of the constructor past the singleton check: empty
        collections (style injection and the container are not modelled). */
    constructor ()
      ensures St() == Initial && Valid()
    {
      notifications := [];
      activeNotices := map[];
      pendingTimers := map[];
      timers := map[];
      hover := map[];
      closeButtons := map[];
      nextId, nextHandle, nextElem := 0, 0, 0;
    }

    /** `setTimeout(callback, delay)`. */
    method SetTimeout(t: Timer) returns (h: Handle)
      modifies this
      ensures h == old(nextHandle)
      ensures St() == Arm(old(St()), t)
    {
      h := nextHandle;
      timers := timers[h := t];
      nextHandle := nextHandle + 1;
    }

    /** `add(message, type, duration, closable)`. */
    method Add(message: Value, severity: Value, duration: Value, closable: Value)
      requires Valid()
      modifies this
      ensures Valid()
      ensures St() == AddStep(old(St()), message, severity, duration, closable)
    {
      ghost var s0 := St();
      AddPreservesValid(s0, message, severity, duration, closable);
      var made := MakeNote(nextId, message, severity, duration, closable);
      if made.None? {
        return;
      }
      nextId := nextId + 1;
      notifications := notifications + [made.value];
      ghost var s1 := St();
      assert s1 == s0.(queue := s0.queue + [made.value], nextId := s0.nextId + 1);
      Render();
      assert AddStep(s0, message, severity, duration, closable) == RenderStep(s1);
    }

    /** `render`: the `forEach` over the queue, then the queue emptied. */
    method Render()
      modifies this
      ensures St() == RenderStep(old(St()))
    {
      if |notifications| == 0 {
        return;
      }
      var q := notifications;
      var i := 0;
      while i < |q|
        invariant 0 <= i <= |q|
        invariant notifications == q
        invariant St() == CreateAll(old(St()), q, i)
      {
        CreateNotice(q[i], i);
        i := i + 1;
      }
      notifications := [];
    }

    /** `createNotice(note, index)`, its timer bookkeeping: a new element
        and a reveal timer recorded under the note's id. */
    method CreateNotice(note: Note, index: nat)
      modifies this
      ensures St() == CreateNoticeStep(old(St()), note, index)
    {
      var e := nextElem;
      nextElem := nextElem + 1;
      var h := SetTimeout(Timer(Reveal, e, note, (index as real) * StaggerMs));
      pendingTimers := pendingTimers[note.id := h];
    }

    /** `showNotice(notice, note)`, its active-entry, timer and listener
        bookkeeping. */
    method ShowNotice(e: Elem, note: Note)
      modifies this
      ensures St() == ShowNoticeStep(old(St()), e, note)
    {
      activeNotices := activeNotices[note.id := Entry(e, note.severity, note.message, note.duration)];
      if note.duration > 0.0 {
        var h := SetTimeout(Timer(AutoDismiss, e, note, note.duration));
        hover := hover[e := Hover(h, note)];
      }
      if note.closable {
        closeButtons := closeButtons[e := note.id];
      }
    }

    /** The event loop runs the callback armed under `h`. */
    method FireTimer(h: Handle)
      requires Valid()
      modifies this
      ensures Valid()
      ensures St() == FireStep(old(St()), h)
    {
      ghost var s0 := St();
      FirePreservesValid(s0, h);
      if h in timers {
        match timers[h].purpose
        case Reveal => FireReveal(h);
        case AutoDismiss => FireAutoDismiss(h);
      }
    }

    /** The callback `createNotice` arms: show the notice, then drop its
        `pendingTimers` entry. */
    method FireReveal(h: Handle)
      requires h in timers && timers[h].purpose == Reveal
      modifies this
      ensures St() == FireStep(old(St()), h)
    {
      var t := timers[h];
      timers := timers - {h};
      ghost var s1 := St();
      ShowNotice(t.elem, t.note);
      assert St() == ShowNoticeStep(s1, t.elem, t.note);
      pendingTimers := pendingTimers - {t.note.id};
    }

    /** The callback `showNotice` arms: hide the element (not modelled)
        and drop the active entry. */
    method FireAutoDismiss(h: Handle)
      requires h in timers && timers[h].purpose == AutoDismiss
      modifies this
      ensures St() == FireStep(old(St()), h)
    {
      var t := timers[h];
      timers := timers - {h};
      activeNotices := activeNotices - {t.note.id};
    }

    /** The mouseenter listener of element `e`. */
    method MouseEnter(e: Elem)
      requires Valid()
      modifies this
      ensures Valid()
      ensures St() == MouseEnterStep(old(St()), e)
    {
      if e in hover {
        timers := timers - {hover[e].original};
      }
      MouseEnterPreservesValid(old(St()), e);
    }

    /** The mouseleave listener of element `e`. */
    method MouseLeave(e: Elem)
      requires Valid()
      modifies this
      ensures Valid()
      ensures St() == MouseLeaveStep(old(St()), e)
    {
      if e in hover {
        var n := hover[e].note;
        var _ := SetTimeout(Timer(AutoDismiss, e, n, n.duration));
      }
      MouseLeavePreservesValid(old(St()), e);
    }

    /** The click listener of element `e`'s close button. */
    method ClickClose(e: Elem)
      requires Valid()
      modifies this
      ensures Valid()
      ensures St() == ClickCloseStep(old(St()), e)
    {
      if e in closeButtons {
        activeNotices := activeNotices - {closeButtons[e]};
        closeButtons := closeButtons - {e};
      }
      ClickClosePreservesValid(old(St()), e);
    }

    /** `closeByMessageImmediately(message)`: the queue filter, the loop
        over `pendingTimers` and the loop over `activeNotices`. */
    method CloseByMessageImmediately(message: string)
      requires Valid()
      modifies this
      ensures Valid()
      ensures St() == CloseByMessageStep(old(St()), message)
    {
      ghost var s0 := St();
      CloseByMessageNeverCancelsPending(s0, message);
      CloseByMessagePreservesValid(s0, message);
      notifications := WithoutMessage(notifications, message);
      CancelPendingWith(message);
      RemoveActiveWith(message);
      ghost var r := CloseByMessageStep(s0, message);
      assert activeNotices == r.active && notifications == r.queue;
      assert pendingTimers == r.pending && timers == r.timers;
    }

    /** The loop over `pendingTimers`, run after the queue has been
        filtered: the lookup of each id searches that filtered queue, so
        the branch that would clear a timer is never taken. */
    method CancelPendingWith(message: string)
      requires forall i :: 0 <= i < |notifications| ==> notifications[i].message != message
      modifies this
      ensures unchanged(this)
    {
      var pending, armed := pendingTimers, timers;
      var ids := pendingTimers.Keys;
      while ids != {}
        invariant ids <= pendingTimers.Keys
        invariant pending == pendingTimers && armed == timers
        invariant unchanged(this)
        decreases ids
      {
        var id :| id in ids;
        var timer := pendingTimers[id];
        var note := GetNoteById(notifications, id);
        if note.Some? && note.value.message == message {
          armed := armed - {timer};
          pending := pending - {id};
        }
        ids := ids - {id};
      }
      pendingTimers, timers := pending, armed;
    }

    /** The loop over `activeNotices`: every entry carrying `message` is
        removed (its element is removed from the page, not modelled). */
    method RemoveActiveWith(message: string)
      modifies this
      ensures St() == old(St()).(active := RemoveMessage(old(activeNotices), message))
    {
      var active := activeNotices.Keys;
      while active != {}
        invariant active <= activeNotices.Keys
        invariant activeNotices == map id | id in old(activeNotices)
                                          && (id in active || old(activeNotices)[id].message != message)
                                          :: old(activeNotices)[id]
        invariant St() == old(St()).(active := activeNotices)
        decreases active
      {
        var id :| id in active;
        if activeNotices[id].message == message {
          activeNotices := activeNotices - {id};
        }
        active := active - {id};
      }
    }

    /** `destroy`: every timer of `pendingTimers` cleared, the three
        collections emptied and the singleton released. */
    method Destroy(g: Global)
      requires Valid()
      modifies this, g
      ensures Valid()
      ensures St() == DestroyStep(old(St()))
      ensures g.instance == null
    {
      var ids := pendingTimers.Keys;
      while ids != {}
        invariant ids <= pendingTimers.Keys
        invariant St() == old(St()).(timers := timers)
        invariant timers == old(timers) - Handles(pendingTimers, pendingTimers.Keys - ids)
        decreases ids
      {
        var id :| id in ids;
        HandlesAdd(pendingTimers, pendingTimers.Keys - ids, id);
        timers := timers - {pendingTimers[id]};
        ids := ids - {id};
      }
      assert pendingTimers.Keys - ids == pendingTimers.Keys;
      HandlesAll(pendingTimers);
      pendingTimers := map[];
      activeNotices := map[];
      notifications := [];
      g.instance := null;
      assert St() == DestroyStep(old(St()));
      DestroyEffects(old(St()));
      assert Lifecycle.Valid(St());
    }
  }

  /** The handles `pendingTimers` records under the ids `ids`. */
  ghost function Handles(p: map<Id, Handle>, ids: set<Id>): set<Handle> {
    set id | id in ids && id in p :: p[id]
  }

  lemma HandlesAdd(p: map<Id, Handle>, ids: set<Id>, id: Id)
    requires id in p
    ensures Handles(p, ids + {id}) == Handles(p, ids) + {p[id]}
  {
  }

  lemma HandlesAll(p: map<Id, Handle>)
    ensures Handles(p, p.Keys) == p.Values
  {
    forall v | v in p.Values
      ensures v in Handles(p, p.Keys)
    {
      var id :| id in p && p[id] == v;
    }
  }

  /** The static `SecureNotification.instance`. */
  class Global {
    var instance: SecureNotification?

    ghost predicate Inv()
      reads this, instance
    {
      instance != null ==> instance.Valid()
    }

    constructor ()
      ensures instance == null
    {
      instance := null;
    }

    /** `new SecureNotification()`: the existing instance while one is
        set, otherwise a fresh, empty one that becomes the instance. */
    method Construct() returns (n: SecureNotification)
      requires Inv()
      modifies this
      ensures instance == n && Inv()
      ensures old(instance) != null ==> n == old(instance) && n.St() == old(instance.St())
      ensures old(instance) == null ==> fresh(n) && n.St() == Initial
    {
      if instance != null {
        return instance;
      }
      n := new SecureNotification();
      instance := n;
    }
  }
}
