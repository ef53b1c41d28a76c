/** The notice record that `add` builds from its arguments, the argument
    coercions it applies, and the pure lookups over notices: the icon table,
    the search by id and the two filters by message. */
module Notices {
  import opened JsValues

  datatype Option<T> = None | Some(value: T)

  /** A notice id. `generateId` draws ids from the clock and a random
      number; here they are abstract values handed out by a counter. */
  type Id = nat

  /** The identity of a notice's DOM element (its node is not modelled). */
  type Elem = nat

  datatype Severity = Success | Error | Warning | Info

  /** The type name as the source stores and compares it. */
  function Name(t: Severity): string {
    match t
    case Success => "success"
    case Error => "error"
    case Warning => "warning"
    case Info => "info"
  }

  const Names: set<string> := {"success", "error", "warning", "info"}

  /** A queued notice: trimmed message, coerced type, duration in
      milliseconds and a boolean close flag. The creation timestamp is
      never read and is not modelled. */
  datatype Note = Note(id: Id, message: string, severity: Severity, duration: real, closable: bool)

  /** An `activeNotices` entry: the element plus the note's type, message
      and duration. */
  datatype Entry = Entry(elem: Elem, severity: Severity, message: string, duration: real)

  /** The seconds `add` falls back to for a missing or invalid duration. */
  const DefaultSeconds: real := 3.0

  /** The type check of `add`: one of the four names is kept, anything
      else (another string or a non-string) becomes `info`. */
  function SeverityOf(v: Value): (t: Severity)
    ensures v.Str? && v.s in Names ==> Name(t) == v.s
    ensures !(v.Str? && v.s in Names) ==> t == Info
  {
    if v == Str("success") then Success
    else if v == Str("error") then Error
    else if v == Str("warning") then Warning
    else Info
  }

  /** The duration check of `add`, then the conversion to milliseconds:
      a non-negative number of seconds is kept, anything else (a
      non-number or a negative number) becomes 3 seconds. */
  function DurationMs(v: Value): (ms: real)
    ensures ms >= 0.0
    ensures v.Num? && v.n >= 0.0 ==> ms == 1000.0 * v.n
    ensures !(v.Num? && v.n >= 0.0) ==> ms == 3000.0
  {
    (if v.Num? && v.n >= 0.0 then v.n else DefaultSeconds) * 1000.0
  }

  /** The message check of `add`: a string that is not blank after
      trimming. */
  predicate AcceptsMessage(message: Value) {
    message.Str? && Trim(message.s) != ""
  }

  /** The notice `add` builds, or None when it rejects the message. The
      defaults of `add` (`'info'`, 3 and `true`) replace undefined
      arguments before the checks. */
  function MakeNote(id: Id, message: Value, severity: Value, duration: Value, closable: Value): (r: Option<Note>)
    ensures r.None? <==> !message.Str? || (forall i :: 0 <= i < |message.s| ==> IsWhitespace(message.s[i]))
    ensures r.Some? ==> && r.value.id == id
                        && r.value.message == Trim(message.s)
                        && r.value.message != ""
                        && r.value.severity == SeverityOf(WithDefault(severity, Str("info")))
                        && r.value.duration == DurationMs(WithDefault(duration, Num(DefaultSeconds)))
                        && r.value.closable == (closable == Undefined || Truthy(closable))
  {
    if !AcceptsMessage(message) then None
    else
      Some(Note(id, Trim(message.s),
                SeverityOf(WithDefault(severity, Str("info"))),
                DurationMs(WithDefault(duration, Num(DefaultSeconds))),
                Truthy(WithDefault(closable, Bool(true)))))
  }

  /** A message that is already stored passes the check again unchanged:
      re-adding a notice's own message requeues the same text. */
  lemma MakeNoteStable(id: Id, message: string, severity: Value, duration: Value, closable: Value)
    requires MakeNote(id, Str(message), severity, duration, closable).Some?
    ensures var n := MakeNote(id, Str(message), severity, duration, closable).value;
            MakeNote(id, Str(n.message), severity, duration, closable) == Some(n)
  {
    TrimIdempotent(message);
  }

  /** The type check keeps exactly the four names: each name maps back to
      its own severity. */
  lemma SeverityRoundTrip(t: Severity)
    ensures SeverityOf(Str(Name(t))) == t
  {
    match t
    case Success =>
    case Error =>
    case Warning =>
    case Info =>
  }

  /** `getIconClass`: the Font Awesome class of each type. The fallback of
      the source's table lookup is the info icon. */
  function IconClass(t: Severity): (c: string)
    ensures c == "fa-solid fa-circle-info" <==> t == Info
  {
    match t
    case Success => "fa-solid fa-circle-check"
    case Error => "fa-solid fa-circle-xmark"
    case Warning => "fa-solid fa-triangle-exclamation"
    case Info => "fa-solid fa-circle-info"
  }

  /** Different types get different icons. */
  lemma IconClassInjective(t: Severity, u: Severity)
    ensures IconClass(t) == IconClass(u) ==> t == u
  {
  }

  /** `getNoteById`: the first note of the queue with the given id. */
  function GetNoteById(q: seq<Note>, id: Id): (r: Option<Note>)
    ensures r.Some? ==> r.value.id == id && r.value in q
    ensures r.None? <==> forall i :: 0 <= i < |q| ==> q[i].id != id
    ensures r.Some? ==> exists i :: 0 <= i < |q| && q[i] == r.value
                                    && forall j :: 0 <= j < i ==> q[j].id != id
  {
    if q == [] then None
    else if q[0].id == id then Some(q[0])
    else
      var r := GetNoteById(q[1..], id);
      assert r.Some? ==> exists i :: 1 <= i < |q| && q[i] == r.value
                                     && forall j :: 0 <= j < i ==> q[j].id != id by {
        if r.Some? {
          var i :| 0 <= i < |q[1..]| && q[1..][i] == r.value
                   && forall j :: 0 <= j < i ==> q[1..][j].id != id;
          assert q[i + 1] == r.value;
          assert forall j :: 0 <= j < i + 1 ==> q[j].id != id by {
            forall j | 0 <= j < i + 1 ensures q[j].id != id {
              if j > 0 { assert q[j] == q[1..][j - 1]; }
            }
          }
        }
      }
      r
  }

  /** The queue filter of `closeByMessageImmediately`: the notes whose
      message differs from `m`, in their original order. */
  function WithoutMessage(q: seq<Note>, m: string): (r: seq<Note>)
    ensures |r| <= |q|
    ensures forall n :: n in r <==> n in q && n.message != m
  {
    if q == [] then []
    else if q[0].message != m then [q[0]] + WithoutMessage(q[1..], m)
    else WithoutMessage(q[1..], m)
  }

  /** The filter keeps a single note exactly when its message differs. */
  lemma WithoutMessageSingle(n: Note, m: string)
    ensures WithoutMessage([n], m) == if n.message != m then [n] else []
  {
    assert [n][1..] == [];
  }

  /** The filter works note by note: filtering a concatenation is
      concatenating the filtered parts, so order and repetitions are kept. */
  lemma {:induction false} WithoutMessageConcat(a: seq<Note>, b: seq<Note>, m: string)
    ensures WithoutMessage(a + b, m) == WithoutMessage(a, m) + WithoutMessage(b, m)
  {
    if a == [] {
      assert a + b == b;
    } else {
      assert (a + b)[0] == a[0];
      assert (a + b)[1..] == a[1..] + b;
      WithoutMessageConcat(a[1..], b, m);
    }
  }

  /** A queue with no note carrying `m` passes the filter untouched. */
  lemma {:induction false} WithoutMessageKeepsOthers(q: seq<Note>, m: string)
    requires forall i :: 0 <= i < |q| ==> q[i].message != m
    ensures WithoutMessage(q, m) == q
  {
    if q != [] {
      WithoutMessageKeepsOthers(q[1..], m);
    }
  }

  /** The active-map filter of `closeByMessageImmediately`: the entries
      whose message differs from `m`, each under its own id. */
  function RemoveMessage(a: map<Id, Entry>, m: string): (r: map<Id, Entry>)
    ensures forall id :: id in r <==> id in a && a[id].message != m
    ensures forall id :: id in r ==> r[id] == a[id]
  {
    map id | id in a && a[id].message != m :: a[id]
  }

  /** The lookup of `closeByMessageImmediately` searches the queue that it
      has just filtered, so it never finds a note carrying `m`: its branch
      that would cancel a pending reveal timer cannot be taken. */
  lemma FilteredLookupMisses(q: seq<Note>, m: string, id: Id)
    ensures var n := GetNoteById(WithoutMessage(q, m), id);
            !(n.Some? && n.value.message == m)
  {
  }
}
