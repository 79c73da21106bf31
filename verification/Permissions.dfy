/** Permissions only ever shrink, and with them who may change the kernel configuration. */
module Permissions {
  import opened Basics
  import opened Threads
  import opened Scheduler
  import opened Lifecycle
  import opened Rings
  import opened Steps
  import opened CoreInvariant
  import opened Effects

  predicate Within(p: bv16, q: bv16) {
    p & !q == 0
  }

  /** No slot, live or not, holds any permission of the mask. */
  ghost predicate NobodyHolds(ts: seq<Thread>, mask: bv16) {
    forall i | 0 <= i < |ts| :: ts[i].permissions & mask == 0
  }

  /** Every thread keeps at most its own permissions; only a slot free for a new thread may get
      others, and then at most those of the running thread, its creator. */
  ghost predicate OnlyShrinks(s: KState, r: KState)
    requires s.WF() && s.current != NULL
  {
    && |r.threads| == |s.threads|
    && forall i | 0 <= i < |s.threads| ::
         || Within(r.threads[i].permissions, s.threads[i].permissions)
         || (IsReusable(s.threads[i]) && Within(r.threads[i].permissions, s.Current().permissions))
  }

  lemma RemovalShrinks(p: bv16, remove: bv16)
    ensures Within(p & !remove, p) && Within(p, p)
  {
  }

  lemma WithPropertyShrinks(s: KState, i: int, p: Property)
    requires Core(s) && IsValidThread(s.threads, i)
    ensures OnlyShrinks(s, WithProperty(s, i, p).0) && WithProperty(s, i, p).0.config == s.config
  {
    WithPropertyRemoves(s, i, p);
    NothingShrinks(s, s);
    if p.PropPermissions? {
      RemovalShrinks(s.threads[i].permissions, p.permissions);
    }
  }

  lemma WithPropertyRemoves(s: KState, i: int, p: Property)
    requires s.WF() && IsValidThread(s.threads, i)
    ensures var r := WithProperty(s, i, p).0;
            && r.config == s.config && |r.threads| == |s.threads|
            && forall k | 0 <= k < |s.threads| ::
                 r.threads[k].permissions
                 == if k == i && p.PropPermissions?
                   then s.threads[k].permissions & !p.permissions else s.threads[k].permissions
  {
  }

  lemma SetPropertyShrinks(s: KState, tid: int, value: Option<Property>)
    requires Core(s)
    ensures OnlyShrinks(s, SetPropertyCall(s, tid, value).0)
    ensures SetPropertyCall(s, tid, value).0.config == s.config
  {
    if value.Some? && IsValidThread(s.threads, ResolvedTid(s, tid)) {
      WithPropertyShrinks(s, ResolvedTid(s, tid), value.value);
    }
    NothingShrinks(s, s);
  }

  lemma NothingShrinks(s: KState, r: KState)
    requires s.WF() && s.current != NULL && SamePermissions(s, r)
    ensures OnlyShrinks(s, r)
  {
    forall k | 0 <= k < |s.threads|
      ensures Within(r.threads[k].permissions, s.threads[k].permissions)
    {
      RemovalShrinks(s.threads[k].permissions, 0);
    }
  }

  lemma AddNamedShrinks(s: KState, worker: int, name: Option<string>, args: ThreadArgs, removePermissions: bv16)
    requires Core(s)
    ensures OnlyShrinks(s, AddNamedThread(s, worker, name, args, removePermissions).0)
    ensures AddNamedThread(s, worker, name, args, removePermissions).0.config == s.config
  {
    var i := FirstReusable(s.threads, 0);
    RemovalShrinks(s.Current().permissions, removePermissions);
    NothingShrinks(s, s);
  }

  lemma AddShrinks(s: KState, name: Option<string>, args: Option<ThreadArgs>, worker: int, filename: string,
                   flags: Option<ThreadFlags>)
    requires Core(s)
    ensures OnlyShrinks(s, AddThreadCall(s, name, args, worker, filename, flags).0)
    ensures AddThreadCall(s, name, args, worker, filename, flags).0.config == s.config
  {
    NothingShrinks(s, s);
    if flags.Some? {
      var f := flags.value;
      AddNamedShrinks(s, worker, name, if args.Some? then args.value else ThreadArgs(0, 0, 0, 0), f.removePermissions);
      FromFileShrinks(s, filename, f.removePermissions);
    }
  }

  lemma FromFileShrinks(s: KState, filename: string, removePermissions: bv16)
    requires Core(s)
    ensures OnlyShrinks(s, AddThreadFromFile(s, filename, removePermissions).0)
    ensures AddThreadFromFile(s, filename, removePermissions).0.config == s.config
  {
    var p := FindFreeBackingPage(s.pages, 0);
    var args := ThreadArgs(p, removePermissions as int, 0, 0);
    AddNamedShrinks(s, LOAD_ELF, Some("loader"), args, 0);
    FromFileAddsLoader(s, filename, removePermissions);
    NothingShrinks(s, s);
    if p != INVALID_PAGE {
      SamePermissionsShrink(s, AddNamedThread(s, LOAD_ELF, Some("loader"), args, 0).0,
                            AddThreadFromFile(s, filename, removePermissions).0);
    }
  }

  /** The loader keeps the permissions it was created with. */
  lemma FromFileAddsLoader(s: KState, filename: string, removePermissions: bv16)
    requires Core(s)
    ensures var p := FindFreeBackingPage(s.pages, 0);
            var args := ThreadArgs(p, removePermissions as int, 0, 0);
            var added := AddNamedThread(s, LOAD_ELF, Some("loader"), args, 0).0;
            var r := AddThreadFromFile(s, filename, removePermissions).0;
            && r.config == s.config
            && (p == INVALID_PAGE ==> r.threads == s.threads)
            && (p != INVALID_PAGE ==> SamePermissions(added, r))
  {
  }

  ghost predicate SamePermissions(s: KState, r: KState) {
    |r.threads| == |s.threads| && forall i | 0 <= i < |s.threads| ::
      r.threads[i].permissions == s.threads[i].permissions
  }

  lemma SamePermissionsShrink(s: KState, a: KState, r: KState)
    requires s.WF() && s.current != NULL && OnlyShrinks(s, a) && SamePermissions(a, r)
    ensures OnlyShrinks(s, r)
  {
  }

  lemma CallShrinks(s: KState, call: Call)
    requires Core(s) && CallIsUsable(s, call)
    ensures OnlyShrinks(s, CallEffect(s, call))
    ensures CallEffect(s, call).config != s.config ==> s.Current().permissions & TPERM_KCONFIG != 0
  {
    if call.AddThread? {
      AddShrinks(s, call.name, call.args, call.worker, call.filename, call.flags);
    } else if call.SetThreadProperty? {
      SetPropertyShrinks(s, call.tid, call.value);
      SetPropertyEffect(s, call);
    } else if call.Restart? {
      RestartShrinks(s, call);
    } else {
      CallEffectChanges(s, call);
      ChangesKeepPermissions(s, call, CallEffect(s, call));
      ConfigureNeedsPermission(s, call);
    }
  }

  lemma RestartShrinks(s: KState, call: Call)
    requires Core(s) && CallIsUsable(s, call) && call.Restart?
    ensures OnlyShrinks(s, CallEffect(s, call)) && CallEffect(s, call).config == s.config
  {
    NothingShrinks(s, s);
    RemovalShrinks(s.Current().permissions, call.removePermissions);
  }

  lemma ChangesKeepPermissions(s: KState, call: Call, r: KState)
    requires Core(s) && CallChanges(s, call, r) && (IsPlain(call) || call.ThreadCancel?)
    ensures OnlyShrinks(s, r) && (!call.SetKernelConfig? ==> r.config == s.config)
  {
    NothingShrinks(s, r);
  }

  lemma ConfigureNeedsPermission(s: KState, call: Call)
    requires Core(s) && CallIsUsable(s, call)
    ensures call.SetKernelConfig? && CallEffect(s, call).config != s.config ==>
              s.Current().permissions & TPERM_KCONFIG != 0
  {
  }

  lemma ShrinksThroughTouches(s: KState, entered: KState, effect: KState, r: KState)
    requires s.WF() && s.current != NULL && entered.WF() && entered.current == s.current
    requires OnlyTouched(s, entered) && OnlyShrinks(entered, effect) && OnlyTouched(effect, r)
    ensures OnlyShrinks(s, r)
  {
  }

  lemma EffectShrinks(s: KState, e: Event)
    requires Core(s) && (e.Syscall? ==> CallIsUsable(s, e.call))
    requires e.LoadImage? ==> s.Current().codeBackingPage != INVALID_PAGE
    ensures OnlyShrinks(s, Effect(s, e))
    ensures Effect(s, e).config != s.config ==> s.Current().permissions & TPERM_KCONFIG != 0
  {
    if e.Syscall? && e.stackOk {
      CallShrinks(s, e.call);
    } else {
      NothingShrinks(s, Effect(s, e));
    }
  }

  lemma StepShrinks(s: KState, e: Event)
    requires Core(s) && Allowed(s, e) && Step(s, e).exit.None?
    ensures OnlyShrinks(s, Step(s, e))
    ensures Step(s, e).config != s.config ==> s.Current().permissions & TPERM_KCONFIG != 0
  {
    var entered := Entered(s, e);
    EnteredTouches(s, e);
    EnteredKeepsCore(s, e);
    StepTouches(s, e);
    EffectShrinks(entered, e);
    ShrinksThroughTouches(s, entered, Effect(entered, e), Step(s, e));
  }

  /** Once nobody holds a permission, nobody ever does again. */
  lemma {:induction false} PermissionsAreNeverRegained(s: KState, es: seq<Event>, mask: bv16)
    requires Core(s) && IsRun(s, es) && Run(s, es).exit.None? && NobodyHolds(s.threads, mask)
    ensures NobodyHolds(Run(s, es).threads, mask)
    decreases |es|
  {
    if es == [] {
    } else {
      var r := Step(s, es[0]);
      RunGoesOn(s, es);
      StepShrinks(s, es[0]);
      StepKeepsCore(s, es[0]);
      assert NobodyHolds(r.threads, mask);
      PermissionsAreNeverRegained(r, es[1..], mask);
    }
  }

  /** Once nobody may configure the kernel, its configuration is fixed for the rest of the run. */
  lemma {:induction false} ConfigurationIsFixed(s: KState, es: seq<Event>)
    requires Core(s) && IsRun(s, es) && Run(s, es).exit.None? && NobodyHolds(s.threads, TPERM_KCONFIG)
    ensures Run(s, es).config == s.config
    decreases |es|
  {
    if es == [] {
    } else {
      var r := Step(s, es[0]);
      RunGoesOn(s, es);
      StepShrinks(s, es[0]);
      StepKeepsCore(s, es[0]);
      assert r.config == s.config;
      assert Run(r, []) == r && IsRun(r, []);
      PermissionsAreNeverRegained(s, [es[0]], TPERM_KCONFIG) by { assert [es[0]][1..] == []; }
      ConfigurationIsFixed(r, es[1..]);
    }
  }
}
