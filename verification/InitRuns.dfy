/** What whole sequences of boot options leave in argv_init and envp_init (Kernel/Init/main.c), init=
    in particular. */
module InitRuns {
  import opened Common
  import opened InitArgs

  // ----- what init= forgets

  ghost predicate AreArguments(options: seq<BootOption>) {
    forall i :: 0 <= i < |options| ==> options[i].Argument? || options[i].AfterDashes?
  }

  function Params(options: seq<BootOption>): seq<string>
    requires AreArguments(options)
  {
    seq(|options|, i requires 0 <= i < |options| => options[i].param)
  }

  lemma FirstFreeIs(a: Slots, n: nat)
    requires n <= |a| && (n < |a| ==> a[n].None?) && forall i :: 0 <= i < n ==> a[i].Some?
    ensures FirstFree(a, 0) == n
  {
    if n < |a| {
      assert a[n].None?;
    }
  }

  lemma OneEntered(b: Boot, n: nat, arg: BootOption)
    requires (arg.Argument? || arg.AfterDashes?) && Sized(b) && !b.panic && n <= MAX && b.argv[n].None?
    requires forall i :: 0 <= i < n ==> b.argv[i].Some?
    ensures Step(b, arg) == b.(argv := b.argv[n := Some(arg.param)])
  {
    FirstFreeIs(b.argv, n);
  }

  /** Arguments entered while there is space go to the empty slots one after the other. */
  lemma {:induction false} Entered(b: Boot, n: nat, args: seq<BootOption>)
    requires AreArguments(args) && Sized(b) && !b.panic && n + |args| <= MAX + 1
    requires forall i :: 0 <= i < n ==> b.argv[i].Some?
    requires forall i :: n <= i < n + |args| ==> b.argv[i].None?
    ensures
      var b' := Steps(b, args);
      && Sized(b') && !b'.panic
      && (forall i :: n <= i < n + |args| ==> b'.argv[i] == Some(args[i - n].param))
      && (forall i :: 0 <= i < MAX + 2 && !(n <= i < n + |args|) ==> b'.argv[i] == b.argv[i])
    decreases |args|
  {
    if args != [] {
      OneEntered(b, n, args[0]);
      Entered(Step(b, args[0]), n + 1, args[1..]);
    }
  }

  lemma {:induction false} PanicStays(b: Boot, options: seq<BootOption>)
    requires b.panic
    ensures Steps(b, options).panic
    decreases |options|
  {
    if options != [] {
      PanicStays(Step(b, options[0]), options[1..]);
    }
  }

  /** With slots 0 to MAX taken, one more argument is too many. */
  lemma Overfull(b: Boot, args: seq<BootOption>)
    requires AreArguments(args) && args != [] && Sized(b) && forall i :: 0 <= i <= MAX ==> b.argv[i].Some?
    ensures Steps(b, args).panic
  {
    assert FirstFree(b.argv, 0) > MAX;
    PanicStays(Step(b, args[0]), args[1..]);
  }

  lemma {:induction false} VisibleIs(a: Slots, i: nat, xs: seq<string>)
    requires i + |xs| < |a| && forall j :: i <= j < i + |xs| ==> a[j] == Some(xs[j - i])
    ensures Visible(a, i) == xs + Visible(a, i + |xs|)
    decreases |xs|
  {
    if xs != [] {
      VisibleIs(a, i + 1, xs[1..]);
    }
  }

  /** init gets these arguments and no others. */
  ghost predicate Gets(b: Boot, xs: seq<string>) {
    !b.panic && Visible(b.argv, 1) == xs
  }

  /** How many arguments were entered since the last init=. */
  function Pending(options: seq<BootOption>): nat {
    if options == [] then 0
    else
      var last := options[|options| - 1];
      if last.Init? then 0 else Pending(options[..|options| - 1]) + if last.Env? then 0 else 1
  }

  /** Slot MAX was reached at some time. */
  predicate Reached(options: seq<BootOption>) {
    options != [] && (Reached(options[..|options| - 1]) || Pending(options) >= MAX)
  }

  /** What argv looks like after options that caused no panic. */
  ghost predicate Looks(b: Boot, pending: nat, reached: bool) {
    && Sized(b) && b.argv[0].Some? && b.argv[MAX + 1].None? && pending <= MAX
    && (forall i :: 1 <= i < MAX ==> (b.argv[i].Some? <==> i <= pending))
    && (b.argv[MAX].Some? <==> reached) && (pending == MAX ==> reached)
  }

  lemma LooksNext(b: Boot, pending: nat, reached: bool, o: BootOption)
    requires Looks(b, pending, reached) && !b.panic && !Step(b, o).panic
    ensures o.Env? ==> Looks(Step(b, o), pending, reached)
    ensures o.Init? ==> Looks(Step(b, o), 0, reached)
    ensures o.Argument? || o.AfterDashes? ==> Looks(Step(b, o), pending + 1, reached || pending + 1 >= MAX)
  {
    var n := if pending < MAX - 1 || !reached then pending + 1 else MAX + 1;
    FirstFreeIs(b.argv, n);
  }

  lemma {:induction false} LooksAfter(options: seq<BootOption>)
    requires !Steps(Booted(), options).panic
    ensures Looks(Steps(Booted(), options), Pending(options), Reached(options))
    decreases |options|
  {
    if options != [] {
      var front, o := options[..|options| - 1], options[|options| - 1];
      assert options == front + [o];
      StepsPush(Booted(), front, o);
      if Steps(Booted(), front).panic {
        PanicStays(Steps(Booted(), front), [o]);
        StepsOfTwo(Booted(), front, [o]);
        assert false;
      }
      LooksAfter(front);
      LooksNext(Steps(Booted(), front), Pending(front), Reached(front), o);
    }
  }

  /** For all boot options, init= and arguments behind it: init gets exactly the arguments behind
      init= if and only if there was no panic before and they are at most MAX, or at most MAX - 2 once
      slot MAX has been reached, because init= leaves that slot alone. */
  lemma InitForgets(options: seq<BootOption>, args: seq<BootOption>)
    requires AreArguments(args)
    ensures Gets(Steps(Booted(), options + [Init] + args), Params(args)) <==>
            && !Steps(Booted(), options).panic
            && |args| <= if Reached(options) then MAX - 2 else MAX
  {
    var b := Steps(Booted(), options);
    var c := Step(b, Init);
    StepsOfTwo(Booted(), options + [Init], args);
    StepsPush(Booted(), options, Init);
    if b.panic {
      PanicStays(c, args);
    } else {
      LooksAfter(options);
      LooksNext(b, Pending(options), Reached(options), Init);
      AfterReset(c, args);
    }
  }

  lemma AfterReset(c: Boot, args: seq<BootOption>)
    requires AreArguments(args) && !c.panic && Sized(c) && Looks(c, 0, c.argv[MAX].Some?)
    ensures Gets(Steps(c, args), Params(args)) <==> |args| <= if c.argv[MAX].Some? then MAX - 2 else MAX
  {
    var space := if c.argv[MAX].Some? then MAX - 1 else MAX;
    if |args| <= space {
      FitsBehind(c, args, space);
    } else {
      TooMany(c, args, space);
    }
  }

  lemma EnteredVisible(c: Boot, args: seq<BootOption>)
    requires AreArguments(args) && !c.panic && Sized(c) && c.argv[0].Some? && |args| <= MAX
    requires forall i :: 1 <= i < 1 + |args| ==> c.argv[i].None?
    ensures
      var b := Steps(c, args);
      && Sized(b) && !b.panic && b.argv[1 + |args|] == c.argv[1 + |args|]
      && Visible(b.argv, 1) == Params(args) + Visible(b.argv, 1 + |args|)
  {
    Entered(c, 1, args);
    VisibleIs(Steps(c, args).argv, 1, Params(args));
  }

  /** The arguments fit; what is behind them decides. */
  lemma FitsBehind(c: Boot, args: seq<BootOption>, space: nat)
    requires AreArguments(args) && !c.panic && Sized(c) && Looks(c, 0, c.argv[MAX].Some?)
    requires |args| <= space == if c.argv[MAX].Some? then MAX - 1 else MAX
    ensures Gets(Steps(c, args), Params(args)) <==> c.argv[1 + |args|].None?
  {
    EnteredVisible(c, args);
    NothingVisible(Steps(c, args).argv, 1 + |args|);
    EqualsPrefix(Params(args), Visible(Steps(c, args).argv, 1 + |args|));
  }

  lemma NothingVisible(a: Slots, i: nat)
    requires i < |a|
    ensures Visible(a, i) == [] <==> a[i].None?
  {
  }

  lemma EqualsPrefix(a: seq<string>, b: seq<string>)
    ensures a + b == a <==> b == []
  {
    assert |a + b| == |a| + |b|;
  }

  lemma TooMany(c: Boot, args: seq<BootOption>, space: nat)
    requires AreArguments(args) && !c.panic && Sized(c) && Looks(c, 0, c.argv[MAX].Some?)
    requires space == if c.argv[MAX].Some? then MAX - 1 else MAX
    requires |args| > space
    ensures Steps(c, args).panic
  {
    var first, rest := args[..space], args[space..];
    assert args == first + rest;
    Entered(c, 1, first);
    StepsOfTwo(c, first, rest);
    Overfull(Steps(c, first), rest);
  }

  /** One argument in each slot and init=, then one less: the old argument in slot MAX is back. */
  lemma OldArgumentReturns(before: seq<BootOption>, after: seq<BootOption>)
    requires AreArguments(before) && |before| == MAX && AreArguments(after) && |after| == MAX - 1
    ensures !Steps(Booted(), before).panic
    ensures !Gets(Steps(Booted(), before + [Init] + after), Params(after))
  {
    Entered(Booted(), 1, before);
    LooksAfter(before);
    InitForgets(before, after);
  }

  // ----- replacing the variable in slot MAX

  /** A variable name of the given length. */
  function Name(n: nat): (name: string)
    ensures |name| == n && IsName(name)
  {
    seq(n, _ => 'a')
  }

  function Entry(n: nat): string {
    Name(n) + "=" + ""
  }

  function Variable(n: nat): BootOption {
    Env(Name(n + 1), "")
  }

  function Variables(n: nat): seq<BootOption> {
    seq(n, i requires i >= 0 => Variable(i))
  }

  /** envp with n variables behind the first two. */
  ghost predicate HasVariables(a: Slots, n: nat) {
    && |a| == MAX + 2 && n <= MAX - 1 && a[0] == Some("HOME=/") && a[1] == Some("TERM=linux")
    && (forall i :: 2 <= i < n + 2 ==> a[i] == Some(Entry(i - 1)))
    && (forall i :: n + 2 <= i < MAX + 2 ==> a[i].None?)
  }

  /** Only the slot it was entered in, if any, defines a variable. */
  lemma VariableSlot(a: Slots, n: nat, k: nat)
    requires HasVariables(a, n) && k <= n
    ensures EnvSlot(a, Name(k + 1), 0) == k + 2
  {
    var name := Name(k + 1);
    assert name[0] == 'a' && "HOME=/"[0] == 'H' && "TERM=linux"[0] == 'T';
    forall j | 0 <= j < k + 2 ensures a[j].Some? && !Defines(a[j].value, name) {
      if j >= 2 {
        assert Entry(j - 1)[j - 1] == '=' && name[j - 1] == 'a';
      }
    }
    assert k < n ==> a[k + 2] == Some(Entry(k + 1)) && Defines(Entry(k + 1), name);
    EnvSlotIs(a, name, k + 2);
  }

  lemma NextVariable(b: Boot, n: nat)
    requires !b.panic && HasVariables(b.envp, n) && n < MAX - 1
    ensures !Step(b, Variable(n)).panic && HasVariables(Step(b, Variable(n)).envp, n + 1)
  {
    VariableSlot(b.envp, n, n);
  }

  lemma {:induction false} VariablesEntered(n: nat)
    requires n <= MAX - 1
    ensures var b := Steps(Booted(), Variables(n)); !b.panic && HasVariables(b.envp, n)
  {
    if n > 0 {
      VariablesEntered(n - 1);
      assert Variables(n) == Variables(n - 1) + [Variable(n - 1)];
      StepsPush(Booted(), Variables(n - 1), Variable(n - 1));
      NextVariable(Steps(Booted(), Variables(n - 1)), n - 1);
    }
  }

  /** As many variables as there is space for, and the last one again: a panic, although the new value
      goes where the old one was and the last slot stays empty. */
  lemma ReplacingPanics()
    ensures !Steps(Booted(), Variables(MAX - 1)).panic
    ensures
      var b := Steps(Booted(), Variables(MAX - 1) + [Variable(MAX - 2)]);
      b.panic && HasVariables(b.envp, MAX - 1)
  {
    VariablesEntered(MAX - 1);
    VariableSlot(Steps(Booted(), Variables(MAX - 1)).envp, MAX - 1, MAX - 2);
    StepsPush(Booted(), Variables(MAX - 1), Variable(MAX - 2));
  }
}
