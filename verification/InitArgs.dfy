/** Arguments and environment for init: set_init_arg, unknown_bootoption, init_setup and
    print_unknown_bootoptions in Kernel/Init/main.c. */
module InitArgs {
  import opened Common
  import CommandLine

  /** CONFIG_INIT_ENV_ARG_LIMIT, whatever it is (32 by default); both arrays have two slots more. */
  const MAX: Limit

  type Limit = n: int | n >= 3 witness 32

  type Slots = seq<Option<string>>

  // ----- the arrays as NULL-terminated lists

  /** What a scan from slot i sees. */
  ghost function Visible(a: Slots, i: nat): seq<string>
    decreases |a| - i
  {
    if i >= |a| || a[i].None? then [] else [a[i].value] + Visible(a, i + 1)
  }

  /** The first empty slot from i on. */
  ghost function FirstFree(a: Slots, i: nat): (k: nat)
    requires i <= |a|
    ensures i <= k <= |a| && (k < |a| ==> a[k].None?) && forall j :: i <= j < k ==> a[j].Some?
    decreases |a| - i
  {
    if i == |a| || a[i].None? then i else FirstFree(a, i + 1)
  }

  // ----- environment entries

  /** The entry defines the variable: strncmp(name + "=", entry, strlen(name) + 1) is zero. */
  predicate Defines(entry: string, name: string) {
    |entry| > |name| && entry[..|name|] == name && entry[|name|] == '='
  }

  /** A name that precedes the first '=' of a boot option. */
  predicate IsName(name: string) {
    '=' !in name
  }

  /** An entry defines one variable only. */
  lemma DefinesOnly(entry: string, name: string)
    requires IsName(name) && Defines(entry, name)
    ensures forall other :: IsName(other) && Defines(entry, other) ==> other == name
  {
    assert forall i :: 0 <= i < |name| ==> entry[i] == name[i] != '=';
    forall other | IsName(other) && Defines(entry, other) ensures other == name {
      assert forall i :: 0 <= i < |other| ==> entry[i] == other[i] != '=';
    }
  }

  /** The slot an environment option goes to: where its variable is, or else the first empty one. */
  ghost function EnvSlot(a: Slots, name: string, i: nat): (k: nat)
    requires i <= |a|
    ensures i <= k <= |a|
    ensures k < |a| ==> a[k].None? || Defines(a[k].value, name)
    ensures forall j :: i <= j < k ==> a[j].Some? && !Defines(a[j].value, name)
    decreases |a| - i
  {
    if i == |a| || a[i].None? || Defines(a[i].value, name) then i else EnvSlot(a, name, i + 1)
  }

  /** The value a variable has, if any. */
  ghost function Lookup(a: Slots, name: string): Option<string> {
    var k := EnvSlot(a, name, 0);
    if k < |a| && a[k].Some? then Some(a[k].value[|name| + 1..]) else None
  }

  /** Nothing follows an empty slot, and no variable is defined twice. */
  ghost predicate IsEnvironment(a: Slots) {
    && (forall i, j :: 0 <= i < j < |a| && a[i].None? ==> a[j].None?)
    && (forall i, j, name :: 0 <= i < j < |a| && a[i].Some? && a[j].Some? && IsName(name) && Defines(a[i].value, name)
          ==> !Defines(a[j].value, name))
  }

  ghost function Set(a: Slots, name: string, value: string): Slots {
    var k := EnvSlot(a, name, 0);
    if k < |a| then a[k := Some(name + "=" + value)] else a
  }

  /** k is the slot if it fits and no earlier one does. */
  lemma EnvSlotIs(a: Slots, name: string, k: nat)
    requires k <= |a| && (k == |a| || a[k].None? || Defines(a[k].value, name))
    requires forall j :: 0 <= j < k ==> a[j].Some? && !Defines(a[j].value, name)
    ensures EnvSlot(a, name, 0) == k
  {
  }

  /** Setting a variable sets it. */
  lemma SetThenLookup(a: Slots, name: string, value: string)
    requires EnvSlot(a, name, 0) < |a|
    ensures Lookup(Set(a, name, value), name) == Some(value)
  {
    var k, entry := EnvSlot(a, name, 0), name + "=" + value;
    assert Defines(entry, name) && entry[|name| + 1..] == value;
    EnvSlotIs(Set(a, name, value), name, k);
  }

  /** ... and no other. */
  lemma SetKeepsOthers(a: Slots, name: string, value: string, other: string)
    requires IsName(name) && IsName(other) && name != other && IsEnvironment(a)
    ensures Lookup(Set(a, name, value), other) == Lookup(a, other)
  {
    var k, m, entry := EnvSlot(a, name, 0), EnvSlot(a, other, 0), name + "=" + value;
    if k < |a| {
      DefinesOnly(entry, name);
      if a[k].Some? {
        DefinesOnly(a[k].value, name);
      }
      EnvSlotIs(Set(a, name, value), other, if k == m then k + 1 else m);
    }
  }

  lemma SetIsEnvironment(a: Slots, name: string, value: string)
    requires IsName(name) && IsEnvironment(a)
    ensures IsEnvironment(Set(a, name, value))
  {
    var k, b, entry := EnvSlot(a, name, 0), Set(a, name, value), name + "=" + value;
    DefinesOnly(entry, name);
    if k < |a| && a[k].Some? {
      DefinesOnly(a[k].value, name);
    }
  }

  // ----- the options on values

  datatype BootOption =
    | Env(name: string, value: string)
    | Argument(param: string)
    | AfterDashes(param: string)
    | Init

  /** The two arrays and panic_later. */
  datatype Boot = Boot(argv: Slots, envp: Slots, panic: bool)

  function InitialArgv(): Slots {
    seq(MAX + 2, i => if i == 0 then Some("init") else None)
  }

  function InitialEnvp(): Slots {
    seq(MAX + 2, i => if i == 0 then Some("HOME=/") else if i == 1 then Some("TERM=linux") else None)
  }

  ghost function Booted(): Boot {
    Boot(InitialArgv(), InitialEnvp(), false)
  }

  ghost predicate Sized(b: Boot) {
    |b.argv| == |b.envp| == MAX + 2
  }

  /** Slots 1 to MAX - 1 empty; slot MAX is not touched. */
  function Cleared(a: Slots): Slots {
    seq(|a|, i requires 0 <= i < |a| => if 1 <= i < MAX then None else a[i])
  }

  function Put(a: Slots, k: nat, s: string): Slots {
    if k < |a| then a[k := Some(s)] else a
  }

  ghost function Step(b: Boot, o: BootOption): Boot {
    match o
    case Init => b.(argv := Cleared(b.argv))
    case Env(name, value) =>
      if b.panic then b
      else b.(envp := Set(b.envp, name, value),
              panic := MAX < |b.envp| && b.envp[MAX].Some? && EnvSlot(b.envp, name, 0) >= MAX)
    case Argument(param) =>
      if b.panic then b
      else b.(argv := Put(b.argv, FirstFree(b.argv, 0), param), panic := FirstFree(b.argv, 0) > MAX)
    case AfterDashes(param) =>
      if b.panic then b
      else if FirstFree(b.argv, 0) > MAX then b.(panic := true)
      else b.(argv := Put(b.argv, FirstFree(b.argv, 0), param))
  }

  ghost function Steps(b: Boot, options: seq<BootOption>): Boot
    decreases |options|
  {
    if options == [] then b else Steps(Step(b, options[0]), options[1..])
  }

  lemma {:induction false} StepsOfTwo(b: Boot, first: seq<BootOption>, rest: seq<BootOption>)
    ensures Steps(b, first + rest) == Steps(Steps(b, first), rest)
    decreases |first|
  {
    if first == [] {
      assert first + rest == rest;
    } else {
      assert (first + rest)[0] == first[0] && (first + rest)[1..] == first[1..] + rest;
      StepsOfTwo(Step(b, first[0]), first[1..], rest);
    }
  }

  lemma StepsPush(b: Boot, first: seq<BootOption>, o: BootOption)
    ensures Steps(b, first + [o]) == Step(Steps(b, first), o)
  {
    StepsOfTwo(b, first, [o]);
    assert [o][1..] == [];
  }

  // ----- the code

  class BootArgs {
    const argv: array<Option<string>>
    const envp: array<Option<string>>
    var panicLater: bool

    /** Before a panic is due both arrays end in an empty slot; init's name and two variables are
        always there. */
    ghost predicate Valid()
      reads this, argv, envp
    {
      && argv != envp && argv.Length == envp.Length == MAX + 2
      && argv[0].Some? && envp[0].Some? && envp[1].Some?
      && (!panicLater ==> argv[MAX + 1].None? && envp[MAX + 1].None?)
      && IsEnvironment(envp[..])
    }

    ghost function Value(): Boot
      reads this, argv, envp
    {
      Boot(argv[..], envp[..], panicLater)
    }

    constructor ()
      ensures Valid() && Value() == Booted() && fresh(argv) && fresh(envp) && !panicLater
      ensures Visible(argv[..], 0) == ["init"] && Visible(envp[..], 0) == ["HOME=/", "TERM=linux"]
    {
      argv := new Option<string>[MAX + 2](_ => None);
      envp := new Option<string>[MAX + 2](_ => None);
      panicLater := false;
      new;
      argv[0] := Some("init");
      envp[0] := Some("HOME=/");
      envp[1] := Some("TERM=linux");
      assert Visible(envp[..], 2) == [];
      assert Defines("HOME=/", "HOME");
      DefinesOnly("HOME=/", "HOME");
      assert "TERM=linux"[..4][0] == 'T';
    }

    /** set_init_arg. */
    method SetInitArg(param: string)
      requires Valid()
      modifies this`panicLater, argv
      ensures Valid() && Value() == Step(old(Value()), AfterDashes(param))
      ensures
        var k := FirstFree(old(argv[..]), 0);
        && (!old(panicLater) ==> panicLater == (k > MAX))
        && argv[..] == if old(panicLater) || k > MAX then old(argv[..]) else old(argv[..])[k := Some(param)]
    {
      if panicLater {
        return;
      }
      var i := 0;
      while argv[i].Some?
        invariant i <= MAX && FirstFree(argv[..], 0) == FirstFree(argv[..], i)
        decreases MAX - i
      {
        if i == MAX {
          panicLater := true;
          return;
        }
        i := i + 1;
      }
      argv[i] := Some(param);
    }

    /** unknown_bootoption for an option with a value: the panic is set on passing slot MAX, but the
        scan goes on, into the last slot if need be. */
    method UnknownEnvOption(name: string, value: string)
      requires Valid() && IsName(name)
      modifies this`panicLater, envp
      ensures Valid() && Value() == Step(old(Value()), Env(name, value))
      ensures envp[..] == if old(panicLater) then old(envp[..]) else Set(old(envp[..]), name, value)
      ensures !old(panicLater) ==>
                && panicLater == (old(envp[MAX]).Some? && EnvSlot(old(envp[..]), name, 0) >= MAX)
                && Lookup(envp[..], name) == Some(value)
                && forall other :: IsName(other) && other != name ==>
                                     Lookup(envp[..], other) == Lookup(old(envp[..]), other)
    {
      if panicLater {
        return;
      }
      ghost var before := envp[..];
      var entry := name + "=" + value;
      var i := 0;
      while envp[i].Some?
        invariant i <= MAX + 1 && EnvSlot(before, name, 0) == EnvSlot(before, name, i)
        invariant panicLater == (i > MAX)
        modifies this`panicLater
        decreases MAX + 1 - i
      {
        if i == MAX {
          panicLater := true;
        }
        if Defines(envp[i].value, name) {
          break;
        }
        i := i + 1;
      }
      assert i == EnvSlot(before, name, 0);
      envp[i] := Some(entry);
      assert envp[..] == Set(before, name, value);
      SetThenLookup(before, name, value);
      SetIsEnvironment(before, name, value);
      forall other | IsName(other) && other != name ensures Lookup(envp[..], other) == Lookup(before, other) {
        SetKeepsOthers(before, name, value, other);
      }
    }

    /** unknown_bootoption for an option without a value. */
    method UnknownArgument(param: string)
      requires Valid()
      modifies this`panicLater, argv
      ensures Valid() && Value() == Step(old(Value()), Argument(param))
      ensures
        var k := FirstFree(old(argv[..]), 0);
        && (!old(panicLater) ==> panicLater == (k > MAX))
        && argv[..] == if old(panicLater) then old(argv[..]) else old(argv[..])[k := Some(param)]
    {
      if panicLater {
        return;
      }
      ghost var before := argv[..];
      var i := 0;
      while argv[i].Some?
        invariant i <= MAX + 1 && FirstFree(before, 0) == FirstFree(before, i)
        invariant panicLater == (i > MAX)
        modifies this`panicLater
        decreases MAX + 1 - i
      {
        if i == MAX {
          panicLater := true;
        }
        i := i + 1;
      }
      assert i == FirstFree(before, 0);
      argv[i] := Some(param);
    }

    /** init_setup and rdinit_setup: forget the arguments entered so far.  Slot MAX is not cleared, so
        that is complete exactly if nothing was there. */
    method InitSetup()
      requires Valid()
      modifies argv
      ensures Valid() && Value() == Step(old(Value()), Init) && Visible(argv[..], 1) == []
      ensures argv[0] == old(argv[0]) && argv[MAX] == old(argv[MAX]) && argv[MAX + 1] == old(argv[MAX + 1])
      ensures forall i :: 1 <= i < MAX ==> argv[i].None?
    {
      for i := 1 to MAX
        invariant argv[0] == old(argv[0]) && argv[MAX] == old(argv[MAX]) && argv[MAX + 1] == old(argv[MAX + 1])
        invariant forall j :: 1 <= j < i ==> argv[j].None?
      {
        argv[i] := None;
      }
    }

    /** parse_args over the command line: handlers for the options that reach init. */
    method ParseOptions(options: seq<BootOption>)
      requires Valid() && forall i :: 0 <= i < |options| && options[i].Env? ==> IsName(options[i].name)
      modifies this`panicLater, argv, envp
      ensures Valid() && Value() == Steps(old(Value()), options)
      ensures !panicLater ==> forall name :: IsName(name) ==>
                                Lookup(envp[..], name) == Given(options, name, Lookup(old(envp[..]), name))
    {
      ghost var before := envp[..];
      for n := 0 to |options|
        invariant Valid() && Value() == Steps(old(Value()), options[..n])
        invariant !panicLater ==> forall name :: IsName(name) ==>
                                    Lookup(envp[..], name) == Given(options[..n], name, Lookup(before, name))
      {
        assert options[..n + 1] == options[..n] + [options[n]];
        StepsPush(old(Value()), options[..n], options[n]);
        GivenPush(options[..n], options[n], before);
        match options[n] {
          case Env(name, value) => UnknownEnvOption(name, value);
          case Argument(param) => UnknownArgument(param);
          case AfterDashes(param) => SetInitArg(param);
          case Init => InitSetup();
        }
      }
      assert options[..|options|] == options;
    }

    /** print_unknown_bootoptions.  The text fills the allocation to the byte. */
    method PrintUnknownBootoptions(memory: bool) returns (shown: bool, text: array<char>)
      requires Valid()
      ensures shown <==> !panicLater && memory && (argv[1].Some? || envp[2].Some?)
      ensures shown ==> text[..] == Spaced(Visible(argv[..], 1)) + Spaced(Visible(envp[..], 2)) + [CommandLine.NUL]
    {
      if panicLater || (argv[1].None? && envp[2].None?) {
        return false, new char[0];
      }
      var args := CountOptions(argv, 1);
      var vars := CountOptions(envp, 2);
      var len := 1 + args + vars;
      if !memory {
        return false, new char[0];
      }
      text := new char[len](_ => CommandLine.NUL);
      var end := WriteOptions(text, 0, argv, 1, "");
      end := WriteOptions(text, end, envp, 2, Spaced(Visible(argv[..], 1)));
      shown := true;
      assert text[..] == text[..end] + [text[end]];
    }
  }

  // ----- the values the options give

  /** The last value the options give a variable. */
  ghost function Given(options: seq<BootOption>, name: string, start: Option<string>): Option<string> {
    if options == [] then start else
      var last := options[|options| - 1];
      if last.Env? && last.name == name then Some(last.value) else Given(options[..|options| - 1], name, start)
  }

  lemma GivenPush(options: seq<BootOption>, o: BootOption, before: Slots)
    ensures forall name :: Given(options + [o], name, Lookup(before, name)) ==
                             if o.Env? && o.name == name then Some(o.value)
                             else Given(options, name, Lookup(before, name))
  {
    assert (options + [o])[..|options|] == options;
  }

  // ----- the printer's two passes

  /** The strings with a space before each. */
  ghost function Spaced(xs: seq<string>): string {
    if xs == [] then "" else " " + xs[0] + Spaced(xs[1..])
  }

  /** Every string is there once, in order, behind one space. */
  lemma {:induction false} SpacedInOrder(xs: seq<string>, x: string, ys: seq<string>)
    ensures Spaced(xs + [x] + ys) == Spaced(xs) + [' '] + x + Spaced(ys)
    decreases |xs|
  {
    if xs == [] {
      assert xs + [x] + ys == [x] + ys && ([x] + ys)[1..] == ys;
      assert " " + x + Spaced(ys) == Spaced(xs) + [' '] + x + Spaced(ys);
    } else {
      var all := xs + [x] + ys;
      assert all[0] == xs[0] && all[1..] == xs[1..] + [x] + ys;
      SpacedInOrder(xs[1..], x, ys);
      assert " " + xs[0] + (Spaced(xs[1..]) + [' '] + x + Spaced(ys)) ==
             " " + xs[0] + Spaced(xs[1..]) + [' '] + x + Spaced(ys);
    }
  }

  method CountOptions(a: array<Option<string>>, start: nat) returns (n: nat)
    requires start < a.Length && a[a.Length - 1].None?
    ensures n == |Spaced(Visible(a[..], start))|
  {
    n := 0;
    var p := start;
    while a[p].Some?
      invariant start <= p < a.Length
      invariant n + |Spaced(Visible(a[..], p))| == |Spaced(Visible(a[..], start))|
      decreases a.Length - p
    {
      n := n + 1 + |a[p].value|;
      p := p + 1;
    }
  }

  method WriteOptions(text: array<char>, at: nat, a: array<Option<string>>, start: nat, ghost done: string)
    returns (end: nat)
    requires start < a.Length && a[a.Length - 1].None?
    requires CommandLine.Holds(text[..], done) && at == |done|
    requires at + |Spaced(Visible(a[..], start))| < text.Length
    modifies text
    ensures end == at + |Spaced(Visible(a[..], start))|
    ensures CommandLine.Holds(text[..], done + Spaced(Visible(a[..], start)))
  {
    end := at;
    var p := start;
    ghost var soFar := done;
    while a[p].Some?
      invariant start <= p < a.Length && end == |soFar| && CommandLine.Holds(text[..], soFar)
      invariant soFar + Spaced(Visible(a[..], p)) == done + Spaced(Visible(a[..], start))
      decreases a.Length - p
    {
      ghost var word := " " + a[p].value;
      assert Visible(a[..], p) == [a[p].value] + Visible(a[..], p + 1);
      assert soFar + Spaced(Visible(a[..], p)) == soFar + word + Spaced(Visible(a[..], p + 1));
      CommandLine.HeldPrefix(text[..], soFar, end);
      CommandLine.CopyBehind(text, end, " " + a[p].value, soFar);
      end := end + 1 + |a[p].value|;
      soFar := soFar + word;
      p := p + 1;
    }
  }
}
