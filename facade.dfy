/** The global `Notify` object: each entry point obtains the instance
    through the constructor (the existing one, or a fresh one) and calls
    the corresponding method with the entry point's defaults. */
module Facade {
  import opened JsValues
  import opened Notices
  import opened Lifecycle
  import opened Manager

  /** The default durations, in seconds, of the sugar entry points. */
  const SuccessSeconds: real := 3.0
  const ErrorSeconds: real := 5.0
  const WarningSeconds: real := 4.0
  const InfoSeconds: real := 3.0

  /** `Notify.add(message, type = 'info', duration = 3, closable = true)`. */
  method Add(g: Global, message: Value, severity: Value, duration: Value, closable: Value)
    requires g.Inv()
    modifies g, g.instance
    ensures g.Inv() && g.instance != null
    ensures var st := AddStep(if old(g.instance) == null then Initial else old(g.instance.St()), message,
                              WithDefault(severity, Str("info")), WithDefault(duration, Num(DefaultSeconds)),
                              WithDefault(closable, Bool(true)));
            g.instance.St() == st
    ensures old(g.instance) != null ==> g.instance == old(g.instance)
    ensures old(g.instance) == null ==> fresh(g.instance)
  {
    var n := g.Construct();
    n.Add(message, WithDefault(severity, Str("info")), WithDefault(duration, Num(DefaultSeconds)),
          WithDefault(closable, Bool(true)));
  }

  /** The shape shared by `success`, `error`, `warning` and `info`: a
      fixed type, the entry point's own default duration, and `closable`
      left to the default of `add`. */
  method Sugar(g: Global, severity: Severity, message: Value, duration: Value, seconds: real)
    requires g.Inv()
    modifies g, g.instance
    ensures g.Inv() && g.instance != null
    ensures var st := AddStep(if old(g.instance) == null then Initial else old(g.instance.St()), message,
                              Str(Name(severity)), WithDefault(duration, Num(seconds)), Undefined);
            g.instance.St() == st
    ensures old(g.instance) != null ==> g.instance == old(g.instance)
    ensures old(g.instance) == null ==> fresh(g.instance)
  {
    var n := g.Construct();
    n.Add(message, Str(Name(severity)), WithDefault(duration, Num(seconds)), Undefined);
  }

  /** `Notify.success(message, duration = 3)`. */
  method Success(g: Global, message: Value, duration: Value)
    requires g.Inv()
    modifies g, g.instance
    ensures g.Inv() && g.instance != null
    ensures var st := AddStep(if old(g.instance) == null then Initial else old(g.instance.St()), message,
                              Str("success"), WithDefault(duration, Num(SuccessSeconds)), Undefined);
            g.instance.St() == st
    ensures old(g.instance) != null ==> g.instance == old(g.instance)
    ensures old(g.instance) == null ==> fresh(g.instance)
  {
    Sugar(g, Notices.Success, message, duration, SuccessSeconds);
  }

  /** `Notify.error(message, duration = 5)`. */
  method Error(g: Global, message: Value, duration: Value)
    requires g.Inv()
    modifies g, g.instance
    ensures g.Inv() && g.instance != null
    ensures var st := AddStep(if old(g.instance) == null then Initial else old(g.instance.St()), message,
                              Str("error"), WithDefault(duration, Num(ErrorSeconds)), Undefined);
            g.instance.St() == st
    ensures old(g.instance) != null ==> g.instance == old(g.instance)
    ensures old(g.instance) == null ==> fresh(g.instance)
  {
    Sugar(g, Notices.Error, message, duration, ErrorSeconds);
  }

  /** `Notify.warning(message, duration = 4)`. */
  method Warning(g: Global, message: Value, duration: Value)
    requires g.Inv()
    modifies g, g.instance
    ensures g.Inv() && g.instance != null
    ensures var st := AddStep(if old(g.instance) == null then Initial else old(g.instance.St()), message,
                              Str("warning"), WithDefault(duration, Num(WarningSeconds)), Undefined);
            g.instance.St() == st
    ensures old(g.instance) != null ==> g.instance == old(g.instance)
    ensures old(g.instance) == null ==> fresh(g.instance)
  {
    Sugar(g, Notices.Warning, message, duration, WarningSeconds);
  }

  /** `Notify.info(message, duration = 3)`. */
  method Info(g: Global, message: Value, duration: Value)
    requires g.Inv()
    modifies g, g.instance
    ensures g.Inv() && g.instance != null
    ensures var st := AddStep(if old(g.instance) == null then Initial else old(g.instance.St()), message,
                              Str("info"), WithDefault(duration, Num(InfoSeconds)), Undefined);
            g.instance.St() == st
    ensures old(g.instance) != null ==> g.instance == old(g.instance)
    ensures old(g.instance) == null ==> fresh(g.instance)
  {
    Sugar(g, Notices.Info, message, duration, InfoSeconds);
  }

  /** `Notify.closeByMessageImmediately(message)`. */
  method CloseByMessageImmediately(g: Global, message: string)
    requires g.Inv()
    modifies g, g.instance
    ensures g.Inv() && g.instance != null
    ensures g.instance.St()
            == CloseByMessageStep(if old(g.instance) == null then Initial else old(g.instance.St()), message)
    ensures old(g.instance) != null ==> g.instance == old(g.instance)
    ensures old(g.instance) == null ==> fresh(g.instance)
  {
    var n := g.Construct();
    n.CloseByMessageImmediately(message);
  }

  /** `Notify.destroy()`: with no instance set, one is built only to be
      torn down; either way the singleton is released, so the next entry
      point builds a fresh, empty instance. */
  method Destroy(g: Global)
    requires g.Inv()
    modifies g, g.instance
    ensures g.Inv() && g.instance == null
    ensures old(g.instance) != null ==> old(g.instance).St() == DestroyStep(old(g.instance.St()))
  {
    var n := g.Construct();
    n.Destroy(g);
  }

  /** The sugar entry points' own default applies only to a missing
      duration: an invalid one falls back to the 3 seconds of `add`, so
      `Notify.error(m, -1)` shows for 3 seconds where `Notify.error(m)`
      shows for 5. */
  lemma SugarFallbackIsAddDefault(duration: Value, seconds: real)
    requires seconds >= 0.0
    ensures duration == Undefined ==> DurationMs(WithDefault(duration, Num(seconds))) == 1000.0 * seconds
    ensures duration != Undefined && !(duration.Num? && duration.n >= 0.0) ==>
              DurationMs(WithDefault(duration, Num(seconds))) == 3000.0
  {
  }
}
