// Positional arguments and the `--` marker: the parser delivers every positional
// token, in order, and its index never leaves the configured arguments.
module CommandLine {
  import opened Options

  datatype Arg = Arg(name: string, isAppend: bool, isRequired: bool, hasMetaAction: bool)

  datatype CommandKind = RequiresSubcommand | Action | MetaAction

  datatype Command = Command(kind: CommandKind, positionalArgs: seq<Arg>, subcommands: seq<Subcommand>)

  datatype Subcommand = Subcommand(name: string, command: Command)

  // What the checks of the command builder guarantee.
  ghost predicate Built(c: Command) {
    && (c.positionalArgs == [] || c.subcommands == [])
    && RequiredFirst(c.positionalArgs)
    && forall i | 0 <= i < |c.subcommands| :: Built(c.subcommands[i].command)
  }

  ghost predicate RequiredFirst(args: seq<Arg>) {
    forall i, j | 0 <= i < j < |args| && args[j].isRequired :: args[i].isRequired
  }

  lemma NotBoth(c: Command)
    requires Built(c)
    ensures c.positionalArgs == [] || c.subcommands == []
  {
  }

  lemma BuiltRequiredFirst(c: Command)
    requires Built(c)
    ensures RequiredFirst(c.positionalArgs)
  {
  }

  function FindSubcommand(subcommands: seq<Subcommand>, name: string): (c: Option<Command>)
    ensures c.Some? ==> exists i :: 0 <= i < |subcommands| && subcommands[i] == Subcommand(name, c.value)
    ensures c.None? ==> forall i | 0 <= i < |subcommands| :: subcommands[i].name != name
  {
    if subcommands == [] then None
    else if subcommands[0].name == name then Some(subcommands[0].command)
    else
      var rest := FindSubcommand(subcommands[1..], name);
      assert rest.Some? ==> exists i :: 0 <= i < |subcommands[1..]| && subcommands[1..][i] == Subcommand(name, rest.value);
      rest
  }

  lemma SubcommandBuilt(c: Command, name: string)
    requires Built(c) && FindSubcommand(c.subcommands, name).Some?
    ensures Built(FindSubcommand(c.subcommands, name).value)
  {
  }

  // The effect of one option token: rejected, accepted, or accepted and selecting a meta action.
  datatype OptionEffect = Rejected | Accepted | SelectsMeta

  // What the parser needs to know about options and values.
  datatype Configuration = Configuration(
    parseOption: (Command, string) -> OptionEffect,
    optionsComplete: (Command, seq<string>) -> bool,  // from the option tokens given to the command
    acceptsValue: (Arg, string) -> bool)

  predicate IsOption(token: string)
    ensures IsOption(token) <==> |token| >= 2 && token[0] == '-'
  {
    (|token| >= 2 && token[..2] == "--") || (|token| > 1 && token[0] == '-')
  }

  // -------- Which tokens are positional --------

  // After the first `--`, every token but `--` is positional.
  ghost function SuffixTokens(tokens: seq<string>): seq<string> {
    if tokens == [] then []
    else if tokens[0] == "--" then SuffixTokens(tokens[1..])
    else [tokens[0]] + SuffixTokens(tokens[1..])
  }

  // The positional tokens, in order, of a command line for `c`.
  ghost function PositionalTokens(c: Command, tokens: seq<string>): seq<string>
    decreases |tokens|
  {
    if tokens == [] then []
    else if tokens[0] == "--" then SuffixTokens(tokens)
    else if IsOption(tokens[0]) then PositionalTokens(c, tokens[1..])
    else if c.positionalArgs != [] then [tokens[0]] + PositionalTokens(c, tokens[1..])
    else match FindSubcommand(c.subcommands, tokens[0])
      case Some(sub) => PositionalTokens(sub, tokens[1..])
      case None => []
  }

  // The command selected by the tokens before any `--`.
  ghost function SelectedCommand(c: Command, tokens: seq<string>): Command
    decreases |tokens|
  {
    if tokens == [] || tokens[0] == "--" then c
    else if IsOption(tokens[0]) || c.positionalArgs != [] then SelectedCommand(c, tokens[1..])
    else match FindSubcommand(c.subcommands, tokens[0])
      case Some(sub) => SelectedCommand(sub, tokens[1..])
      case None => c
  }

  // Two markers in a row.
  ghost predicate Doubled(tokens: seq<string>) {
    |tokens| >= 2 && ((tokens[0] == "--" && tokens[1] == "--") || Doubled(tokens[1..]))
  }

  ghost function Concat(values: seq<seq<string>>): seq<string> {
    if values == [] then [] else values[0] + Concat(values[1..])
  }

  lemma {:induction false} ConcatEmpty(values: seq<seq<string>>)
    requires forall i | 0 <= i < |values| :: values[i] == []
    ensures Concat(values) == []
  {
    if values != [] {
      ConcatEmpty(values[1..]);
    }
  }

  // Delivering to the last argument that has values extends the concatenation at its end.
  lemma {:induction false} ConcatDeliver(values: seq<seq<string>>, index: nat, token: string)
    requires index < |values| && forall i | index < i < |values| :: values[i] == []
    ensures Concat(values[index := values[index] + [token]]) == Concat(values) + [token]
  {
    var after := values[index := values[index] + [token]];
    if index == 0 {
      ConcatEmpty(values[1..]);
      assert after[1..] == values[1..];
    } else {
      ConcatDeliver(values[1..], index - 1, token);
      assert after[1..] == values[1..][index - 1 := values[1..][index - 1] + [token]];
      assert values[0] + (Concat(values[1..]) + [token]) == values[0] + Concat(values[1..]) + [token];
    }
  }

  // -------- The state of a parse --------

  datatype Progress = Progress(
    command: Command,
    index: nat,                    // the positional argument that receives the next token
    appending: bool,               // whether that argument already has tokens and takes more
    metaAction: bool,
    options: seq<string>,          // the option tokens given to `command`
    delivered: seq<seq<string>>)   // the storage of each positional argument of `command`

  ghost function Start(c: Command): Progress {
    Progress(c, 0, false, false, [], seq(|c.positionalArgs|, _ => []))
  }

  ghost predicate Sound(p: Progress) {
    var args := p.command.positionalArgs;
    && Built(p.command)
    && |p.delivered| == |args|
    && p.index <= |args|
    && (p.appending ==> p.index < |args| && args[p.index].isAppend && p.delivered[p.index] != [])
    && (forall i | Untouched(p) <= i < |args| :: p.delivered[i] == [])
    && (forall i | 0 <= i < |args| :: !args[i].isAppend ==> |p.delivered[i]| <= 1)
  }

  // The first argument that no token has been delivered to.
  ghost function Untouched(p: Progress): nat {
    p.index + if p.appending then 1 else 0
  }

  // No argument has been passed over without a value.
  ghost predicate NonePassedOver(p: Progress) {
    forall i | 0 <= i < p.index && i < |p.delivered| :: p.delivered[i] != []
  }

  // -------- What the parser does with the tokens --------

  ghost function Deliver(cfg: Configuration, p: Progress, token: string): Option<Progress>
    requires Sound(p)
  {
    if p.index < |p.delivered| && cfg.acceptsValue(p.command.positionalArgs[p.index], token) then
      var arg := p.command.positionalArgs[p.index];
      Some(p.(index := if arg.isAppend then p.index else p.index + 1,
              appending := arg.isAppend,
              metaAction := p.metaAction || arg.hasMetaAction,
              delivered := p.delivered[p.index := p.delivered[p.index] + [token]]))
    else None
  }

  lemma DeliverKeeps(cfg: Configuration, p: Progress, token: string)
    requires Sound(p) && Deliver(cfg, p, token).Some?
    ensures var q := Deliver(cfg, p, token).value;
      && Sound(q) && q.command == p.command
      && Concat(q.delivered) == Concat(p.delivered) + [token]
      && (NonePassedOver(q) <==> NonePassedOver(p))
      && q.delivered[..p.index] == p.delivered[..p.index]
  {
    hide Concat, Built;
    ConcatDeliver(p.delivered, p.index, token);
    var q := Deliver(cfg, p, token).value;
    assert forall i | 0 <= i < |p.delivered| && i != p.index :: q.delivered[i] == p.delivered[i];
    assert q.delivered[p.index] != [];
    assert NonePassedOver(q) ==> NonePassedOver(p);
  }

  // The argument after the one that a `--` ends or passes over.
  ghost function PassOver(p: Progress): Progress {
    p.(index := p.index + 1, appending := false)
  }

  lemma PassOverKeeps(p: Progress)
    requires Sound(p) && p.index < |p.delivered|
    ensures Sound(PassOver(p))
    ensures NonePassedOver(PassOver(p)) <==> NonePassedOver(p) && p.appending
  {
    hide Built;
    if !p.appending {
      assert PassOver(p).delivered[p.index] == [];
    }
  }

  // A `--` ends the argument being appended to; one right after another `--` passes over an argument.
  ghost function Suffix(cfg: Configuration, p: Progress, afterMarker: bool, tokens: seq<string>): Option<Progress>
    requires Sound(p)
    decreases |tokens|
  {
    if tokens == [] then Some(p)
    else if tokens[0] != "--" then
      match Deliver(cfg, p, tokens[0])
      case None => None
      case Some(q) => DeliverKeeps(cfg, p, tokens[0]); Suffix(cfg, q, false, tokens[1..])
    else if !p.appending && !afterMarker then Suffix(cfg, p, true, tokens[1..])
    else if p.index + 1 >= |p.delivered| then None
    else PassOverKeeps(p); Suffix(cfg, PassOver(p), true, tokens[1..])
  }

  lemma {:induction false} SuffixConserves(cfg: Configuration, p: Progress, afterMarker: bool, tokens: seq<string>)
    requires Sound(p) && Suffix(cfg, p, afterMarker, tokens).Some?
    ensures var q := Suffix(cfg, p, afterMarker, tokens).value;
      Sound(q) && q.command == p.command && Concat(q.delivered) == Concat(p.delivered) + SuffixTokens(tokens)
    decreases |tokens|
  {
    hide Sound, Concat, Deliver;
    if tokens == [] {
    } else if tokens[0] != "--" {
      DeliverKeeps(cfg, p, tokens[0]);
      var q := Deliver(cfg, p, tokens[0]).value;
      SuffixConserves(cfg, q, false, tokens[1..]);
      assert Concat(p.delivered) + [tokens[0]] + SuffixTokens(tokens[1..])
          == Concat(p.delivered) + ([tokens[0]] + SuffixTokens(tokens[1..]));
    } else if !p.appending && !afterMarker {
      SuffixConserves(cfg, p, true, tokens[1..]);
    } else {
      PassOverKeeps(p);
      SuffixConserves(cfg, PassOver(p), true, tokens[1..]);
    }
  }

  // On success, an argument is passed over exactly when two markers follow each other.
  lemma {:induction false} SuffixPassesOver(cfg: Configuration, p: Progress, afterMarker: bool, tokens: seq<string>)
    requires Sound(p) && Suffix(cfg, p, afterMarker, tokens).Some?
    requires afterMarker ==> !p.appending
    ensures NonePassedOver(Suffix(cfg, p, afterMarker, tokens).value) <==>
      && NonePassedOver(p)
      && !(afterMarker && tokens != [] && tokens[0] == "--")
      && !Doubled(tokens)
    decreases |tokens|
  {
    hide Sound, Concat, Deliver, NonePassedOver;
    if tokens == [] {
    } else if tokens[0] != "--" {
      DeliverKeeps(cfg, p, tokens[0]);
      SuffixPassesOver(cfg, Deliver(cfg, p, tokens[0]).value, false, tokens[1..]);
    } else if !p.appending && !afterMarker {
      SuffixPassesOver(cfg, p, true, tokens[1..]);
    } else {
      PassOverKeeps(p);
      SuffixPassesOver(cfg, PassOver(p), true, tokens[1..]);
    }
  }

  // What was delivered before the current argument stays as it is.
  lemma {:induction false} SuffixKeepsEarlier(cfg: Configuration, p: Progress, afterMarker: bool, tokens: seq<string>)
    requires Sound(p) && Suffix(cfg, p, afterMarker, tokens).Some?
    ensures var q := Suffix(cfg, p, afterMarker, tokens).value;
      && p.index <= q.index <= |p.delivered| == |q.delivered|
      && q.delivered[..p.index] == p.delivered[..p.index]
    decreases |tokens|
  {
    hide Concat, Built;
    if tokens == [] {
    } else if tokens[0] != "--" {
      DeliverKeeps(cfg, p, tokens[0]);
      var q := Deliver(cfg, p, tokens[0]).value;
      SuffixKeepsEarlier(cfg, q, false, tokens[1..]);
      var last := Suffix(cfg, p, afterMarker, tokens).value;
      assert last.delivered[..q.index][..p.index] == last.delivered[..p.index];
      assert q.delivered[..q.index][..p.index] == q.delivered[..p.index];
    } else if !p.appending && !afterMarker {
      SuffixKeepsEarlier(cfg, p, true, tokens[1..]);
    } else {
      PassOverKeeps(p);
      SuffixKeepsEarlier(cfg, PassOver(p), true, tokens[1..]);
      var last := Suffix(cfg, p, afterMarker, tokens).value;
      assert last.delivered[..p.index + 1][..p.index] == last.delivered[..p.index];
      assert p.delivered[..p.index + 1][..p.index] == p.delivered[..p.index];
    }
  }

  // The tokens may be given in two parts.
  lemma {:induction false} SuffixSplits(cfg: Configuration, p: Progress, afterMarker: bool,
                                        first: seq<string>, second: seq<string>)
    requires Sound(p) && Suffix(cfg, p, afterMarker, first + second).Some?
    ensures Suffix(cfg, p, afterMarker, first).Some?
    ensures Sound(Suffix(cfg, p, afterMarker, first).value)
    ensures Suffix(cfg, p, afterMarker, first + second) ==
      Suffix(cfg, Suffix(cfg, p, afterMarker, first).value,
             if first == [] then afterMarker else first[|first| - 1] == "--", second)
    decreases |first|
  {
    hide Sound, Concat, Deliver;
    if first == [] {
      assert first + second == second;
    } else {
      assert (first + second)[1..] == first[1..] + second;
      if first[0] != "--" {
        DeliverKeeps(cfg, p, first[0]);
        SuffixSplits(cfg, Deliver(cfg, p, first[0]).value, false, first[1..], second);
      } else if !p.appending && !afterMarker {
        SuffixSplits(cfg, p, true, first[1..], second);
      } else {
        PassOverKeeps(p);
        SuffixSplits(cfg, PassOver(p), true, first[1..], second);
      }
    }
  }

  // No token after a `--` joins an argument that received one before it.
  lemma {:induction false} MarkerSeparates(cfg: Configuration, p: Progress, afterMarker: bool,
                                           first: seq<string>, second: seq<string>)
    requires Sound(p) && Suffix(cfg, p, afterMarker, first + ["--"] + second).Some?
    ensures Suffix(cfg, p, afterMarker, first).Some?
    ensures var middle := Suffix(cfg, p, afterMarker, first).value;
      var last := Suffix(cfg, p, afterMarker, first + ["--"] + second).value;
      && Untouched(middle) <= |middle.delivered| == |last.delivered|
      && last.delivered[..Untouched(middle)] == middle.delivered[..Untouched(middle)]
  {
    hide Suffix, Concat, Deliver, Built;
    assert first + ["--"] + second == first + (["--"] + second);
    SuffixSplits(cfg, p, afterMarker, first, ["--"] + second);
    var middle := Suffix(cfg, p, afterMarker, first).value;
    var marker := if first == [] then afterMarker else first[|first| - 1] == "--";
    AfterMarker(cfg, middle, marker, second);
  }

  lemma AfterMarker(cfg: Configuration, p: Progress, afterMarker: bool, tokens: seq<string>)
    requires Sound(p) && Suffix(cfg, p, afterMarker, ["--"] + tokens).Some?
    ensures var q := Suffix(cfg, p, afterMarker, ["--"] + tokens).value;
      && Untouched(p) <= |p.delivered| == |q.delivered|
      && q.delivered[..Untouched(p)] == p.delivered[..Untouched(p)]
  {
    hide Concat, Deliver, Built;
    assert (["--"] + tokens)[1..] == tokens;
    if !p.appending && !afterMarker {
      SuffixKeepsEarlier(cfg, p, true, tokens);
    } else {
      PassOverKeeps(p);
      SuffixKeepsEarlier(cfg, PassOver(p), true, tokens);
      var q := Suffix(cfg, p, afterMarker, ["--"] + tokens).value;
      assert q.delivered[..p.index + 1][..p.index] == q.delivered[..p.index];
      assert p.delivered[..p.index + 1][..p.index] == p.delivered[..p.index];
    }
  }

  // -------- The argument that is passed over --------

  // The first argument that two markers in a row pass over, found from the tokens and from which
  // arguments are appended to.
  function SuffixSkips(args: seq<Arg>, index: nat, appending: bool, afterMarker: bool, tokens: seq<string>): Option<nat>
    decreases |tokens|
  {
    if tokens == [] then None
    else if tokens[0] != "--" then
      if index >= |args| then None
      else if args[index].isAppend then SuffixSkips(args, index, true, false, tokens[1..])
      else SuffixSkips(args, index + 1, false, false, tokens[1..])
    else if appending then SuffixSkips(args, index + 1, false, true, tokens[1..])
    else if afterMarker then Some(index)
    else SuffixSkips(args, index, false, true, tokens[1..])
  }

  function Skips(c: Command, index: nat, appending: bool, tokens: seq<string>): Option<nat>
    decreases |tokens|
  {
    if tokens == [] then None
    else if tokens[0] == "--" then SuffixSkips(c.positionalArgs, index, appending, false, tokens)
    else if IsOption(tokens[0]) then Skips(c, index, appending, tokens[1..])
    else if c.positionalArgs != [] then
      if index >= |c.positionalArgs| then None
      else if c.positionalArgs[index].isAppend then Skips(c, index, true, tokens[1..])
      else Skips(c, index + 1, false, tokens[1..])
    else match FindSubcommand(c.subcommands, tokens[0])
      case Some(sub) => Skips(sub, 0, false, tokens[1..])
      case None => None
  }

  // The first argument passed over by a command line for `root`, if any.
  function FirstPassedOver(root: Command, tokens: seq<string>): Option<nat> {
    Skips(root, 0, false, tokens)
  }

  // `first` is the first argument left without a value before the index, if there is one.
  ghost predicate FirstGap(q: Progress, first: Option<nat>) {
    match first
    case None => NonePassedOver(q)
    case Some(i) => i < q.index && i < |q.delivered| && q.delivered[i] == [] && forall j: nat | j < i :: q.delivered[j] != []
  }

  lemma {:induction false} SuffixFirstGap(cfg: Configuration, p: Progress, afterMarker: bool, tokens: seq<string>)
    requires Sound(p) && NonePassedOver(p) && Suffix(cfg, p, afterMarker, tokens).Some?
    requires afterMarker ==> !p.appending
    ensures FirstGap(Suffix(cfg, p, afterMarker, tokens).value,
                     SuffixSkips(p.command.positionalArgs, p.index, p.appending, afterMarker, tokens))
    decreases |tokens|
  {
    hide Sound, Concat, NonePassedOver, FirstGap;
    if tokens == [] {
      NoGap(p);
    } else if tokens[0] != "--" {
      DeliverKeeps(cfg, p, tokens[0]);
      DeliverMoves(cfg, p, tokens[0]);
      SuffixFirstGap(cfg, Deliver(cfg, p, tokens[0]).value, false, tokens[1..]);
    } else if !p.appending && !afterMarker {
      SuffixFirstGap(cfg, p, true, tokens[1..]);
    } else {
      PassOverKeeps(p);
      if p.appending {
        SuffixFirstGap(cfg, PassOver(p), true, tokens[1..]);
      } else {
        SuffixKeepsEarlier(cfg, PassOver(p), true, tokens[1..]);
        GapStays(p, Suffix(cfg, PassOver(p), true, tokens[1..]).value);
      }
    }
  }

  lemma NoGap(p: Progress)
    requires NonePassedOver(p)
    ensures FirstGap(p, None)
  {
  }

  lemma DeliverMoves(cfg: Configuration, p: Progress, token: string)
    requires Sound(p) && Deliver(cfg, p, token).Some?
    ensures p.index < |p.command.positionalArgs|
    ensures var q := Deliver(cfg, p, token).value;
      && q.appending == p.command.positionalArgs[p.index].isAppend
      && q.index == p.index + if q.appending then 0 else 1
  {
    hide Built, Concat;
  }

  // An argument passed over stays without a value, and those before it keep theirs.
  lemma GapStays(p: Progress, q: Progress)
    requires Sound(p) && NonePassedOver(p) && !p.appending
    requires p.index + 1 <= q.index <= |p.delivered| == |q.delivered|
    requires q.delivered[..p.index + 1] == p.delivered[..p.index + 1]
    ensures FirstGap(q, Some(p.index))
  {
    hide Built, Concat;
    assert forall j | 0 <= j <= p.index :: q.delivered[j] == q.delivered[..p.index + 1][j];
    assert forall j | 0 <= j <= p.index :: p.delivered[j] == p.delivered[..p.index + 1][j];
  }

  lemma StartSound(c: Command)
    requires Built(c)
    ensures Sound(Start(c)) && NonePassedOver(Start(c)) && Concat(Start(c).delivered) == []
  {
    ConcatEmpty(Start(c).delivered);
  }

  ghost function TakeOption(p: Progress, token: string, effect: OptionEffect): Progress {
    p.(options := p.options + [token], metaAction := p.metaAction || effect == SelectsMeta)
  }

  lemma TakeOptionSound(p: Progress, token: string, effect: OptionEffect)
    requires Sound(p)
    ensures Sound(TakeOption(p, token, effect))
  {
    hide Built;
  }

  ghost function EnterSubcommand(cfg: Configuration, p: Progress, token: string): Option<Progress> {
    match FindSubcommand(p.command.subcommands, token)
    case Some(sub) =>
      if cfg.optionsComplete(p.command, p.options) then Some(Start(sub).(metaAction := p.metaAction)) else None
    case None => None
  }

  lemma EnterSubcommandSound(cfg: Configuration, p: Progress, token: string)
    requires Sound(p) && EnterSubcommand(cfg, p, token).Some?
    ensures var q := EnterSubcommand(cfg, p, token).value;
      && Sound(q) && NonePassedOver(q) && Concat(q.delivered) == []
  {
    hide Built, FindSubcommand;
    SubcommandBuilt(p.command, token);
    StartSound(FindSubcommand(p.command.subcommands, token).value);
  }

  lemma NoSubcommand(cfg: Configuration, p: Progress, token: string)
    requires p.command.subcommands == []
    ensures EnterSubcommand(cfg, p, token) == None
  {
  }

  ghost function Run(cfg: Configuration, p: Progress, tokens: seq<string>): Option<Progress>
    requires Sound(p)
    decreases |tokens|
  {
    if tokens == [] then Some(p)
    else if tokens[0] == "--" then
      if p.index < |p.delivered| then Suffix(cfg, p, false, tokens) else None
    else if IsOption(tokens[0]) then
      var effect := cfg.parseOption(p.command, tokens[0]);
      TakeOptionSound(p, tokens[0], effect);
      if effect == Rejected then None else Run(cfg, TakeOption(p, tokens[0], effect), tokens[1..])
    else if p.command.positionalArgs != [] then
      match Deliver(cfg, p, tokens[0])
      case None => None
      case Some(q) => DeliverKeeps(cfg, p, tokens[0]); Run(cfg, q, tokens[1..])
    else
      match EnterSubcommand(cfg, p, tokens[0])
      case None => None
      case Some(q) => EnterSubcommandSound(cfg, p, tokens[0]); Run(cfg, q, tokens[1..])
  }

  // Every positional token is delivered, in order, to the arguments of the selected command.
  lemma {:induction false} RunConserves(cfg: Configuration, p: Progress, tokens: seq<string>)
    requires Sound(p) && Run(cfg, p, tokens).Some?
    ensures var q := Run(cfg, p, tokens).value;
      && Sound(q)
      && q.command == SelectedCommand(p.command, tokens)
      && Concat(q.delivered) == Concat(p.delivered) + PositionalTokens(p.command, tokens)
    decreases |tokens|
  {
    hide Sound, Concat, Deliver, FindSubcommand, Suffix;
    if tokens == [] {
    } else if tokens[0] == "--" {
      SuffixConserves(cfg, p, false, tokens);
    } else if IsOption(tokens[0]) {
      var effect := cfg.parseOption(p.command, tokens[0]);
      TakeOptionSound(p, tokens[0], effect);
      RunConserves(cfg, TakeOption(p, tokens[0], effect), tokens[1..]);
    } else if p.command.positionalArgs != [] {
      DeliverKeeps(cfg, p, tokens[0]);
      RunConserves(cfg, Deliver(cfg, p, tokens[0]).value, tokens[1..]);
      assert Concat(p.delivered) + [tokens[0]] + PositionalTokens(p.command, tokens[1..])
          == Concat(p.delivered) + ([tokens[0]] + PositionalTokens(p.command, tokens[1..]));
    } else {
      EnterSubcommandSound(cfg, p, tokens[0]);
      RunConserves(cfg, EnterSubcommand(cfg, p, tokens[0]).value, tokens[1..]);
      NothingDelivered(p);
    }
  }

  lemma NothingDelivered(p: Progress)
    requires Sound(p) && p.command.positionalArgs == []
    ensures Concat(p.delivered) == [] && NonePassedOver(p) && p.index == 0 && !p.appending
  {
    hide Built;
  }

  lemma {:induction false} RunPassesOver(cfg: Configuration, p: Progress, tokens: seq<string>)
    requires Sound(p) && NonePassedOver(p) && Run(cfg, p, tokens).Some?
    ensures NonePassedOver(Run(cfg, p, tokens).value) <==> !Doubled(tokens)
    decreases |tokens|
  {
    hide Sound, Concat, Deliver, FindSubcommand, EnterSubcommand, Suffix, NonePassedOver;
    if tokens == [] {
    } else if tokens[0] == "--" {
      SuffixPassesOver(cfg, p, false, tokens);
    } else if IsOption(tokens[0]) {
      var effect := cfg.parseOption(p.command, tokens[0]);
      TakeOptionSound(p, tokens[0], effect);
      assert NonePassedOver(TakeOption(p, tokens[0], effect)) by { SamePassedOver(p, tokens[0], effect); }
      RunPassesOver(cfg, TakeOption(p, tokens[0], effect), tokens[1..]);
    } else if p.command.positionalArgs != [] {
      DeliverKeeps(cfg, p, tokens[0]);
      RunPassesOver(cfg, Deliver(cfg, p, tokens[0]).value, tokens[1..]);
    } else {
      EnterSubcommandSound(cfg, p, tokens[0]);
      RunPassesOver(cfg, EnterSubcommand(cfg, p, tokens[0]).value, tokens[1..]);
    }
  }

  lemma SamePassedOver(p: Progress, token: string, effect: OptionEffect)
    ensures NonePassedOver(TakeOption(p, token, effect)) <==> NonePassedOver(p)
  {
  }

  // On success, the first argument without a value before the index is the one found from the tokens.
  lemma {:induction false} RunFirstGap(cfg: Configuration, p: Progress, tokens: seq<string>)
    requires Sound(p) && NonePassedOver(p) && Run(cfg, p, tokens).Some?
    ensures FirstGap(Run(cfg, p, tokens).value, Skips(p.command, p.index, p.appending, tokens))
    decreases |tokens|
  {
    hide Sound, Concat, FindSubcommand, Suffix, SuffixSkips, NonePassedOver, FirstGap, Deliver;
    if tokens == [] {
      NoGap(p);
    } else if tokens[0] == "--" {
      SuffixFirstGap(cfg, p, false, tokens);
    } else if IsOption(tokens[0]) {
      var effect := cfg.parseOption(p.command, tokens[0]);
      TakeOptionSound(p, tokens[0], effect);
      SamePassedOver(p, tokens[0], effect);
      RunFirstGap(cfg, TakeOption(p, tokens[0], effect), tokens[1..]);
    } else if p.command.positionalArgs != [] {
      DeliverKeeps(cfg, p, tokens[0]);
      DeliverMoves(cfg, p, tokens[0]);
      RunFirstGap(cfg, Deliver(cfg, p, tokens[0]).value, tokens[1..]);
    } else {
      EnterSubcommandSound(cfg, p, tokens[0]);
      RunFirstGap(cfg, EnterSubcommand(cfg, p, tokens[0]).value, tokens[1..]);
    }
  }

  // -------- The result of a parse --------

  datatype ParseResult = Error | Success | MetaSuccess

  ghost predicate RequiredLeft(p: Progress) {
    exists i :: Untouched(p) <= i < |p.command.positionalArgs| && p.command.positionalArgs[i].isRequired
  }

  ghost function Finish(cfg: Configuration, p: Progress): ParseResult {
    if p.metaAction then MetaSuccess
    else if !cfg.optionsComplete(p.command, p.options) || RequiredLeft(p) then Error
    else match p.command.kind
      case RequiresSubcommand => Error
      case Action => Success
      case MetaAction => MetaSuccess
  }

  ghost function Outcome(cfg: Configuration, root: Command, tokens: seq<string>): ParseResult
    requires Built(root)
  {
    StartSound(root);
    match Run(cfg, Start(root), tokens)
    case None => Error
    case Some(q) => Finish(cfg, q)
  }

  // -------- The result, from the command line alone --------

  // Where a command line leads, if every token is accepted: the command, the options given to it, the
  // argument that takes the next value, what each argument has received, and whether a `--` came
  // anywhere, and right before.
  datatype Place = Place(command: Command, options: seq<string>, index: nat, appending: bool,
                         received: seq<seq<string>>, suffix: bool, afterMarker: bool)

  function FirstPlace(c: Command): Place {
    Place(c, [], 0, false, seq(|c.positionalArgs|, _ => []), false, false)
  }

  function PlaceAfter(root: Command, tokens: seq<string>): Place {
    if tokens == [] then FirstPlace(root)
    else NextPlace(PlaceAfter(root, tokens[..|tokens| - 1]), tokens[|tokens| - 1])
  }

  function NextPlace(p: Place, token: string): Place {
    var args := p.command.positionalArgs;
    if token == "--" then
      p.(index := if p.appending || p.afterMarker then p.index + 1 else p.index,
         appending := false, suffix := true, afterMarker := true)
    else if IsOptionAt(p, token) then p.(options := p.options + [token])
    else if IsValueAt(p, token) then
      var received :=
        if p.index < |p.received| then p.received[p.index := p.received[p.index] + [token]] else p.received;
      if p.index < |args| && args[p.index].isAppend then
        p.(appending := true, received := received, afterMarker := false)
      else p.(index := p.index + 1, appending := false, received := received, afterMarker := false)
    else match FindSubcommand(p.command.subcommands, token)
      case Some(sub) => FirstPlace(sub)
      case None => p
  }

  predicate IsOptionAt(p: Place, token: string) {
    !p.suffix && token != "--" && IsOption(token)
  }

  predicate IsValueAt(p: Place, token: string) {
    token != "--" && (p.suffix || (!IsOption(token) && p.command.positionalArgs != []))
  }

  // A value needs an argument that takes it, an option has to be one of the command, and a subcommand
  // needs the options before it to be complete. A `--` needs an argument that it begins: the first one
  // the current argument, one that ends an argument or follows another `--` the next argument.
  ghost predicate AcceptedAt(cfg: Configuration, p: Place, token: string) {
    var args := p.command.positionalArgs;
    if token == "--" then
      if p.appending || p.afterMarker then p.index + 1 < |args| else p.suffix || p.index < |args|
    else if IsOptionAt(p, token) then cfg.parseOption(p.command, token) != Rejected
    else if IsValueAt(p, token) then p.index < |args| && cfg.acceptsValue(args[p.index], token)
    else FindSubcommand(p.command.subcommands, token).Some? && cfg.optionsComplete(p.command, p.options)
  }

  ghost predicate SelectsMetaAt(cfg: Configuration, p: Place, token: string) {
    || (IsOptionAt(p, token) && cfg.parseOption(p.command, token) == SelectsMeta)
    || (IsValueAt(p, token) && p.index < |p.command.positionalArgs| && p.command.positionalArgs[p.index].hasMetaAction)
  }

  ghost predicate AllAccepted(cfg: Configuration, root: Command, tokens: seq<string>, from: nat) {
    forall k | from <= k < |tokens| :: AcceptedAt(cfg, PlaceAfter(root, tokens[..k]), tokens[k])
  }

  ghost predicate MetaSelected(cfg: Configuration, root: Command, tokens: seq<string>, from: nat) {
    exists k :: from <= k < |tokens| && SelectsMetaAt(cfg, PlaceAfter(root, tokens[..k]), tokens[k])
  }

  ghost predicate RequiredLeftAt(p: Place) {
    var args := p.command.positionalArgs;
    exists i :: p.index + (if p.appending then 1 else 0) <= i < |args| && args[i].isRequired
  }

  // The progress of a parse is at this place.
  ghost predicate StandsAt(q: Progress, p: Place) {
    && q.command == p.command && q.options == p.options && q.index == p.index && q.appending == p.appending
    && q.delivered == p.received
  }

  lemma PlaceNext(root: Command, tokens: seq<string>, n: nat)
    requires n < |tokens|
    ensures PlaceAfter(root, tokens[..n + 1]) == NextPlace(PlaceAfter(root, tokens[..n]), tokens[n])
    ensures tokens[n..] == [tokens[n]] + tokens[n + 1..]
  {
    assert tokens[..n + 1][..n] == tokens[..n];
  }

  lemma AcceptedFrom(cfg: Configuration, root: Command, tokens: seq<string>, n: nat)
    requires n < |tokens|
    ensures AllAccepted(cfg, root, tokens, n)
      <==> AcceptedAt(cfg, PlaceAfter(root, tokens[..n]), tokens[n]) && AllAccepted(cfg, root, tokens, n + 1)
    ensures MetaSelected(cfg, root, tokens, n)
      <==> SelectsMetaAt(cfg, PlaceAfter(root, tokens[..n]), tokens[n]) || MetaSelected(cfg, root, tokens, n + 1)
  {
    hide AcceptedAt, SelectsMetaAt, PlaceAfter;
  }

  // What is left of the command line after the first `n` tokens.
  ghost predicate Continues(cfg: Configuration, root: Command, tokens: seq<string>, n: nat, q: Progress,
                            result: Option<Progress>) {
    && (result.Some? <==> AllAccepted(cfg, root, tokens, n))
    && (result.Some? ==>
          && StandsAt(result.value, PlaceAfter(root, tokens))
          && (result.value.metaAction <==> q.metaAction || MetaSelected(cfg, root, tokens, n)))
  }

  lemma {:induction false} SuffixExact(cfg: Configuration, root: Command, tokens: seq<string>, n: nat, q: Progress)
    requires n <= |tokens| && Sound(q) && StandsAt(q, PlaceAfter(root, tokens[..n]))
    requires PlaceAfter(root, tokens[..n]).suffix
      || (n < |tokens| && tokens[n] == "--" && q.index < |q.delivered| && !PlaceAfter(root, tokens[..n]).afterMarker)
    ensures Continues(cfg, root, tokens, n, q, Suffix(cfg, q, PlaceAfter(root, tokens[..n]).afterMarker, tokens[n..]))
    decreases |tokens| - n
  {
    hide Concat, Built, PlaceAfter, NextPlace, AcceptedAt, SelectsMetaAt, AllAccepted, MetaSelected, Deliver, Sound;
    var p := PlaceAfter(root, tokens[..n]);
    if n == |tokens| {
      NothingLeft(cfg, root, tokens);
    } else {
      var token := tokens[n];
      PlaceNext(root, tokens, n);
      AcceptedFrom(cfg, root, tokens, n);
      if token != "--" {
        ValueExact(cfg, q, p, token);
        if Deliver(cfg, q, token).Some? {
          DeliverKeeps(cfg, q, token);
          SuffixExact(cfg, root, tokens, n + 1, Deliver(cfg, q, token).value);
        }
      } else {
        MarkerExact(cfg, q, p);
        if q.appending || p.afterMarker {
          if q.index + 1 < |q.delivered| {
            PassOverKeeps(q);
            SuffixExact(cfg, root, tokens, n + 1, PassOver(q));
          }
        } else {
          SuffixExact(cfg, root, tokens, n + 1, q);
        }
      }
    }
  }

  lemma NothingLeft(cfg: Configuration, root: Command, tokens: seq<string>)
    ensures AllAccepted(cfg, root, tokens, |tokens|) && !MetaSelected(cfg, root, tokens, |tokens|)
    ensures tokens[..|tokens|] == tokens
  {
  }

  lemma ValueExact(cfg: Configuration, q: Progress, p: Place, token: string)
    requires Sound(q) && StandsAt(q, p) && IsValueAt(p, token)
    ensures Deliver(cfg, q, token).Some? <==> AcceptedAt(cfg, p, token)
    ensures Deliver(cfg, q, token).Some? ==>
      && StandsAt(Deliver(cfg, q, token).value, NextPlace(p, token))
      && (Deliver(cfg, q, token).value.metaAction <==> q.metaAction || SelectsMetaAt(cfg, p, token))
    ensures NextPlace(p, token).suffix == p.suffix && !NextPlace(p, token).afterMarker
  {
    hide Concat, Built, FindSubcommand, IsOption;
  }

  lemma MarkerExact(cfg: Configuration, q: Progress, p: Place)
    requires Sound(q) && StandsAt(q, p) && (p.suffix || q.index < |q.delivered|)
    ensures AcceptedAt(cfg, p, "--") <==> (q.appending || p.afterMarker ==> q.index + 1 < |q.delivered|)
    ensures !SelectsMetaAt(cfg, p, "--")
    ensures StandsAt(if q.appending || p.afterMarker then PassOver(q) else q, NextPlace(p, "--"))
    ensures NextPlace(p, "--").suffix && NextPlace(p, "--").afterMarker
  {
    hide Concat, Built, FindSubcommand, IsOption;
  }

  lemma {:induction false} RunExact(cfg: Configuration, root: Command, tokens: seq<string>, n: nat, q: Progress)
    requires n <= |tokens| && Sound(q) && StandsAt(q, PlaceAfter(root, tokens[..n]))
    requires !PlaceAfter(root, tokens[..n]).suffix && !PlaceAfter(root, tokens[..n]).afterMarker
    ensures Continues(cfg, root, tokens, n, q, Run(cfg, q, tokens[n..]))
    decreases |tokens| - n
  {
    hide Concat, Built, PlaceAfter, NextPlace, AcceptedAt, SelectsMetaAt, AllAccepted, MetaSelected, Deliver, Sound,
         Suffix, TakeOption, EnterSubcommand, IsOption;
    var p := PlaceAfter(root, tokens[..n]);
    if n == |tokens| {
      NothingLeft(cfg, root, tokens);
    } else {
      var token := tokens[n];
      PlaceNext(root, tokens, n);
      AcceptedFrom(cfg, root, tokens, n);
      if token == "--" {
        if q.index < |q.delivered| {
          SuffixExact(cfg, root, tokens, n, q);
        } else {
          MarkerRefused(cfg, q, p);
        }
      } else if IsOption(token) {
        OptionExact(cfg, q, p, token);
        var effect := cfg.parseOption(q.command, token);
        TakeOptionSound(q, token, effect);
        if effect != Rejected {
          RunExact(cfg, root, tokens, n + 1, TakeOption(q, token, effect));
        }
      } else if q.command.positionalArgs != [] {
        ValueExact(cfg, q, p, token);
        if Deliver(cfg, q, token).Some? {
          DeliverKeeps(cfg, q, token);
          RunExact(cfg, root, tokens, n + 1, Deliver(cfg, q, token).value);
        }
      } else {
        SubcommandExact(cfg, q, p, token);
        if EnterSubcommand(cfg, q, token).Some? {
          EnterSubcommandSound(cfg, q, token);
          RunExact(cfg, root, tokens, n + 1, EnterSubcommand(cfg, q, token).value);
        }
      }
    }
  }

  lemma MarkerRefused(cfg: Configuration, q: Progress, p: Place)
    requires Sound(q) && StandsAt(q, p) && !p.suffix && !p.afterMarker && q.index >= |q.delivered|
    ensures !AcceptedAt(cfg, p, "--")
  {
    hide Concat, Built;
  }

  lemma OptionExact(cfg: Configuration, q: Progress, p: Place, token: string)
    requires StandsAt(q, p) && !p.suffix && token != "--" && IsOption(token)
    ensures var effect := cfg.parseOption(q.command, token);
      && (AcceptedAt(cfg, p, token) <==> effect != Rejected)
      && StandsAt(TakeOption(q, token, effect), NextPlace(p, token))
      && (TakeOption(q, token, effect).metaAction <==> q.metaAction || SelectsMetaAt(cfg, p, token))
    ensures NextPlace(p, token).suffix == p.suffix && NextPlace(p, token).afterMarker == p.afterMarker
  {
  }

  lemma SubcommandExact(cfg: Configuration, q: Progress, p: Place, token: string)
    requires StandsAt(q, p) && !p.suffix && token != "--" && !IsOption(token) && q.command.positionalArgs == []
    ensures EnterSubcommand(cfg, q, token).Some? <==> AcceptedAt(cfg, p, token)
    ensures !SelectsMetaAt(cfg, p, token)
    ensures EnterSubcommand(cfg, q, token).Some? ==>
      && StandsAt(EnterSubcommand(cfg, q, token).value, NextPlace(p, token))
      && EnterSubcommand(cfg, q, token).value.metaAction == q.metaAction
      && !NextPlace(p, token).suffix && !NextPlace(p, token).afterMarker
  {
    hide FindSubcommand;
  }

  // The command selected is given all that it needs.
  ghost predicate Complete(cfg: Configuration, root: Command, tokens: seq<string>) {
    var p := PlaceAfter(root, tokens);
    AllAccepted(cfg, root, tokens, 0) && cfg.optionsComplete(p.command, p.options) && !RequiredLeftAt(p)
  }

  // A parse succeeds if and only if every token is accepted, none selects a meta action, and the command
  // selected is an action that has its options and required arguments; a meta action, chosen by a token or
  // by being the command, makes it a meta success; and anything else is an error.
  lemma {:induction false} OutcomeExact(cfg: Configuration, root: Command, tokens: seq<string>)
    requires Built(root)
    ensures var kind := SelectedCommand(root, tokens).kind;
      var meta := MetaSelected(cfg, root, tokens, 0);
      match Outcome(cfg, root, tokens)
      case Success => Complete(cfg, root, tokens) && !meta && kind == Action
      case MetaSuccess =>
        AllAccepted(cfg, root, tokens, 0) && (meta || (Complete(cfg, root, tokens) && kind == MetaAction))
      case Error =>
        || !AllAccepted(cfg, root, tokens, 0)
        || (!meta && (!Complete(cfg, root, tokens) || kind == RequiresSubcommand))
    ensures AllAccepted(cfg, root, tokens, 0) ==> PlaceAfter(root, tokens).command == SelectedCommand(root, tokens)
    ensures Sound(Start(root))
    ensures Run(cfg, Start(root), tokens).Some? ==>
      StandsAt(Run(cfg, Start(root), tokens).value, PlaceAfter(root, tokens))
  {
    hide Concat, Built, PlaceAfter, AllAccepted, MetaSelected, Sound, Run, SelectedCommand;
    StartSound(root);
    StartPlace(root, tokens);
    RunExact(cfg, root, tokens, 0, Start(root));
    if Run(cfg, Start(root), tokens).Some? {
      RunConserves(cfg, Start(root), tokens);
    }
  }

  lemma StartPlace(root: Command, tokens: seq<string>)
    ensures StandsAt(Start(root), PlaceAfter(root, tokens[..0])) && tokens[0..] == tokens
    ensures !PlaceAfter(root, tokens[..0]).suffix && !PlaceAfter(root, tokens[..0]).afterMarker
  {
  }

  ghost predicate RequiredHaveValues(q: Progress) {
    var args := q.command.positionalArgs;
    forall i | 0 <= i < |args| && i < |q.delivered| && args[i].isRequired :: q.delivered[i] != []
  }

  // The first gap decides, because required arguments come first.
  lemma GapDecides(q: Progress, first: Option<nat>)
    requires Sound(q) && FirstGap(q, first) && !RequiredLeft(q)
    ensures first.Some? ==> first.value < |q.command.positionalArgs|
    ensures RequiredHaveValues(q) <==> first.None? || !q.command.positionalArgs[first.value].isRequired
  {
    hide Concat;
    BuiltRequiredFirst(q.command);
    hide Built;
    if first.None? {
      assert forall i | 0 <= i < |q.delivered| && q.delivered[i] == [] :: i >= Untouched(q);
    }
  }

  // When a parse succeeds and runs the command, every required argument has a value if and only if
  // no two markers in a row pass over an argument, or the first one passed over is not required.
  lemma {:induction false} RequiredFilled(cfg: Configuration, root: Command, tokens: seq<string>)
    requires Built(root) && Outcome(cfg, root, tokens) != Error
    ensures Sound(Start(root)) && Run(cfg, Start(root), tokens).Some?
    ensures !Run(cfg, Start(root), tokens).value.metaAction ==>
      var q := Run(cfg, Start(root), tokens).value;
      var first := FirstPassedOver(root, tokens);
      && q.command == SelectedCommand(root, tokens)
      && (first.Some? <==> Doubled(tokens))
      && (first.Some? ==> first.value < |q.command.positionalArgs|)
      && (RequiredHaveValues(q) <==> first.None? || !q.command.positionalArgs[first.value].isRequired)
  {
    hide Run, SelectedCommand, Built, Concat, Sound, RequiredHaveValues, NonePassedOver, Skips, Doubled, RequiredLeft;
    StartSound(root);
    RunConserves(cfg, Start(root), tokens);
    RunPassesOver(cfg, Start(root), tokens);
    RunFirstGap(cfg, Start(root), tokens);
    GapMeansPassedOver(Run(cfg, Start(root), tokens).value, FirstPassedOver(root, tokens));
    if !Run(cfg, Start(root), tokens).value.metaAction {
      GapDecides(Run(cfg, Start(root), tokens).value, FirstPassedOver(root, tokens));
    }
  }

  lemma GapMeansPassedOver(q: Progress, first: Option<nat>)
    requires FirstGap(q, first)
    ensures NonePassedOver(q) <==> first.None?
  {
  }

  // Two markers do pass over a required argument.
  lemma {:induction false} RequiredPassedOver(cfg: Configuration, root: Command)
    requires root == Command(Action, [Arg("a", false, true, false), Arg("b", false, false, false)], [])
    requires cfg.acceptsValue(root.positionalArgs[1], "x") && cfg.optionsComplete(root, [])
    ensures Built(root) && Sound(Start(root))
    ensures Outcome(cfg, root, ["--", "--", "x"]) == Success
    ensures Run(cfg, Start(root), ["--", "--", "x"]).value.delivered == [[], ["x"]]
  {
    StartSound(root);
    var p0 := Start(root);
    var p1 := PassOver(p0);
    PassOverKeeps(p0);
    var p2 := p1.(index := 2, delivered := [[], ["x"]]);
    var tokens := ["--", "--", "x"];
    assert tokens[1..] == ["--", "x"] && tokens[1..][1..] == ["x"] && ["x"][1..] == [];
    var taken := p1.delivered[1] + ["x"];
    assert taken == ["x"];
    assert p1.delivered[1 := taken] == p2.delivered;
    assert Deliver(cfg, p1, "x") == Some(p2);
    assert Suffix(cfg, p2, false, []) == Some(p2);
    assert Suffix(cfg, p1, true, ["x"]) == Some(p2);
    assert Suffix(cfg, p0, true, ["--", "x"]) == Some(p2);
    assert Suffix(cfg, p0, false, tokens) == Some(p2);
  }

  // -------- The parser --------

  class Parser {
    const cfg: Configuration
    var command: Command
    var positionalArgIndex: nat
    var appendingToPositionalArg: bool
    var argMetaAction: bool
    var optionTokens: seq<string>
    var storage: seq<seq<string>>

    ghost function State(): Progress
      reads this
    {
      Progress(command, positionalArgIndex, appendingToPositionalArg, argMetaAction, optionTokens, storage)
    }

    constructor (cfg: Configuration, root: Command)
      requires Built(root)
      ensures this.cfg == cfg && State() == Start(root) && Sound(State())
    {
      this.cfg := cfg;
      command := root;
      positionalArgIndex, appendingToPositionalArg, argMetaAction := 0, false, false;
      optionTokens := [];
      storage := seq(|root.positionalArgs|, _ => []);
      new;
      StartSound(root);
    }

    method ParsePositionalArg(token: string) returns (ok: bool)
      requires Sound(State())
      modifies this
      ensures ok == Deliver(cfg, old(State()), token).Some?
      ensures ok ==> State() == Deliver(cfg, old(State()), token).value
    {
      hide Built;
      if positionalArgIndex >= |command.positionalArgs| {
        return false;
      }
      var index := positionalArgIndex;
      var arg := command.positionalArgs[index];
      appendingToPositionalArg := arg.isAppend;
      if !appendingToPositionalArg {
        positionalArgIndex := positionalArgIndex + 1;
      }
      if arg.hasMetaAction {
        argMetaAction := true;
      }
      if !cfg.acceptsValue(arg, token) {
        return false;
      }
      storage := storage[index := storage[index] + [token]];
      return true;
    }

    method ParseOption(token: string) returns (ok: bool)
      modifies this
      ensures ok == (cfg.parseOption(old(command), token) != Rejected)
      ensures ok ==> State() == TakeOption(old(State()), token, cfg.parseOption(old(command), token))
    {
      var effect := cfg.parseOption(command, token);
      if effect == Rejected {
        return false;
      }
      if effect == SelectsMeta {
        argMetaAction := true;
      }
      optionTokens := optionTokens + [token];
      return true;
    }

    // Recurses into a subcommand once the options of the current command are complete.
    method ParseSubcommand(token: string) returns (ok: bool)
      requires Sound(State()) && command.positionalArgs == []
      modifies this
      ensures ok == EnterSubcommand(cfg, old(State()), token).Some?
      ensures ok ==> State() == EnterSubcommand(cfg, old(State()), token).value
    {
      hide Built, FindSubcommand;
      match FindSubcommand(command.subcommands, token) {
        case None =>
          return false;
        case Some(subcommand) =>
          if !cfg.optionsComplete(command, optionTokens) {
            return false;
          }
          command := subcommand;
          optionTokens := [];
          storage := seq(|subcommand.positionalArgs|, _ => []);
          return true;
      }
    }

    method ParsePositionalSuffix(tokens: seq<string>) returns (ok: bool)
      requires Sound(State()) && command.positionalArgs != []
      requires tokens != [] && tokens[0] == "--"
      modifies this
      ensures ok == Suffix(cfg, old(State()), false, tokens).Some?
      ensures ok ==> State() == Suffix(cfg, old(State()), false, tokens).value
    {
      hide Built, Deliver;
      var unparsed := tokens;
      var emptyPositional := false;
      while unparsed != []
        invariant Sound(State()) && (emptyPositional ==> !appendingToPositionalArg)
        invariant Suffix(cfg, State(), emptyPositional, unparsed) == Suffix(cfg, old(State()), false, tokens)
        decreases |unparsed|
      {
        ghost var p := State();
        var token := unparsed[0];
        unparsed := unparsed[1..];
        if token != "--" {
          var parsed := ParsePositionalArg(token);
          if !parsed {
            return false;
          }
          DeliverKeeps(cfg, p, token);
          emptyPositional := false;
          continue;
        }
        if appendingToPositionalArg || emptyPositional {
          positionalArgIndex := positionalArgIndex + 1;
          if positionalArgIndex >= |command.positionalArgs| {
            return false;
          }
          PassOverKeeps(p);
        }
        appendingToPositionalArg := false;
        emptyPositional := true;
      }
      return true;
    }

    method FinalizeParse() returns (result: ParseResult)
      requires Sound(State())
      modifies this`positionalArgIndex
      ensures result == Finish(cfg, old(State()))
      ensures var complete := cfg.optionsComplete(command, optionTokens) && !old(RequiredLeft(State()));
        match result
        case Success => !argMetaAction && complete && command.kind == Action
        case MetaSuccess => argMetaAction || (complete && command.kind == MetaAction)
        case Error => !argMetaAction && (!complete || command.kind == RequiresSubcommand)
      ensures positionalArgIndex <= |command.positionalArgs|
    {
      hide Built;
      if argMetaAction {
        return MetaSuccess;
      }
      if !cfg.optionsComplete(command, optionTokens) {
        return Error;
      }
      if appendingToPositionalArg {
        assert positionalArgIndex < |command.positionalArgs|;
        positionalArgIndex := positionalArgIndex + 1;
      }
      var unparsed := command.positionalArgs[positionalArgIndex..];
      if unparsed != [] {
        if unparsed[0].isRequired {
          assert command.positionalArgs[positionalArgIndex].isRequired;
          return Error;
        }
        BuiltRequiredFirst(command);
        for i := 0 to |unparsed| {
          assert !unparsed[i].isRequired by {
            assert unparsed[i] == command.positionalArgs[positionalArgIndex + i];
            assert unparsed[0] == command.positionalArgs[positionalArgIndex];
          }
        }
      }
      match command.kind {
        case RequiresSubcommand => return Error;
        case Action => return Success;
        case MetaAction => return MetaSuccess;
      }
    }

    method Parse(tokens: seq<string>) returns (result: ParseResult)
      requires Built(command) && State() == Start(command)
      modifies this
      ensures result == Outcome(cfg, old(command), tokens)
      ensures var root, meta := old(command), MetaSelected(cfg, old(command), tokens, 0);
        var kind := SelectedCommand(root, tokens).kind;
        match result
        case Success => Complete(cfg, root, tokens) && !meta && kind == Action
        case MetaSuccess =>
          AllAccepted(cfg, root, tokens, 0) && (meta || (Complete(cfg, root, tokens) && kind == MetaAction))
        case Error =>
          || !AllAccepted(cfg, root, tokens, 0)
          || (!meta && (!Complete(cfg, root, tokens) || kind == RequiresSubcommand))
      ensures result != Error ==> command == SelectedCommand(old(command), tokens)
      ensures result != Error ==> storage == PlaceAfter(old(command), tokens).received
      ensures result != Error ==> Concat(storage) == PositionalTokens(old(command), tokens)
      ensures result != Error ==> positionalArgIndex <= |command.positionalArgs|
    {
      hide Built, Deliver, EnterSubcommand, TakeOption, Suffix, SelectedCommand, PositionalTokens, Finish, Concat,
           Complete, AllAccepted, MetaSelected, PlaceAfter;
      StartSound(command);
      OutcomeExact(cfg, command, tokens);
      var unparsed := tokens;
      while unparsed != []
        invariant Sound(State())
        invariant Run(cfg, State(), unparsed) == Run(cfg, old(State()), tokens)
        decreases |unparsed|
      {
        ghost var p := State();
        if unparsed[0] == "--" {
          if command.positionalArgs == [] || positionalArgIndex >= |command.positionalArgs| {
            return Error;
          }
          var suffixParsed := ParsePositionalSuffix(unparsed);
          if !suffixParsed {
            return Error;
          }
          SuffixConserves(cfg, p, false, unparsed);
          unparsed := [];
          break;
        }
        var token := unparsed[0];
        unparsed := unparsed[1..];
        var parsed;
        if IsOption(token) {
          TakeOptionSound(p, token, cfg.parseOption(command, token));
          parsed := ParseOption(token);
        } else {
          NotBoth(command);
          assert command.positionalArgs == [] || command.subcommands == [];
          if command.positionalArgs == [] && command.subcommands == [] {
            NoSubcommand(cfg, p, token);
            return Error;
          }
          if command.positionalArgs != [] {
            parsed := ParsePositionalArg(token);
            if parsed {
              DeliverKeeps(cfg, p, token);
            }
          } else {
            parsed := ParseSubcommand(token);
            if parsed {
              EnterSubcommandSound(cfg, p, token);
            }
          }
        }
        if !parsed {
          return Error;
        }
      }
      assert Run(cfg, State(), []) == Some(State());
      RunConserves(cfg, old(State()), tokens);
      result := FinalizeParse();
    }
  }
}
