// The grammar of sections 8.1 and 8.2 of RFC 5228: syntax trees, their token sequences, and the
// trees that keep to the limits of src/lib-sieve/sieve-limits.h.
module Grammar {
  const MAX_COMMAND_ARGUMENTS := 32
  const MAX_BLOCK_NESTING := 32
  const MAX_TEST_NESTING := 32

  // `Unusable` stands for the tokens no rule of the grammar begins with or goes on with.
  datatype Token =
    | Identifier(name: string) | Tag(name: string) | Number(value: nat) | String(text: string)
    | LSquare | RSquare | LBracket | RBracket | LCurly | RCurly | Semicolon | Comma | Unusable

  datatype Arg = StringArg(text: string) | StringList(items: seq<string>) | NumberArg(value: nat) | TagArg(name: string)

  datatype Test = Test(name: string, args: seq<Arg>, tests: Tests)

  datatype Tests = NoTest | OneTest(test: Test) | TestList(list: seq<Test>)

  datatype Command = Command(name: string, args: seq<Arg>, tests: Tests, block: Block)

  datatype Block = NoBlock | Block(commands: seq<Command>)

  // ----- The tokens of a tree -----

  function ItemTokens(items: seq<string>): seq<Token>
  {
    if items == [] then []
    else if |items| == 1 then [String(items[0])]
    else [String(items[0]), Comma] + ItemTokens(items[1..])
  }

  function ArgTokens(arg: Arg): seq<Token>
  {
    match arg
    case StringArg(text) => [String(text)]
    case StringList(items) => [LSquare] + ItemTokens(items) + [RSquare]
    case NumberArg(value) => [Number(value)]
    case TagArg(name) => [Tag(name)]
  }

  function ArgsTokens(args: seq<Arg>): seq<Token>
  {
    if args == [] then [] else ArgTokens(args[0]) + ArgsTokens(args[1..])
  }

  function TestTokens(test: Test): seq<Token>
    decreases test, 0
  {
    [Identifier(test.name)] + ArgsTokens(test.args) + TestsTokens(test.tests)
  }

  function TestsTokens(tests: Tests): seq<Token>
    decreases tests, 0
  {
    match tests
    case NoTest => []
    case OneTest(test) => TestTokens(test)
    case TestList(list) => [LBracket] + ListTokens(list) + [RBracket]
  }

  function ListTokens(list: seq<Test>): seq<Token>
    decreases list, 0
  {
    if list == [] then []
    else if |list| == 1 then TestTokens(list[0])
    else TestTokens(list[0]) + [Comma] + ListTokens(list[1..])
  }

  function BlockTokens(block: Block): seq<Token>
    decreases block, 0
  {
    match block
    case NoBlock => [Semicolon]
    case Block(commands) => [LCurly] + CommandsTokens(commands) + [RCurly]
  }

  function CommandTokens(command: Command): seq<Token>
    decreases command, 0
  {
    [Identifier(command.name)] + ArgsTokens(command.args) + TestsTokens(command.tests) + BlockTokens(command.block)
  }

  function CommandsTokens(commands: seq<Command>): seq<Token>
    decreases commands, 0
  {
    if commands == [] then [] else CommandTokens(commands[0]) + CommandsTokens(commands[1..])
  }

  // ----- Trees within the limits -----

  predicate ArgFits(arg: Arg) { arg.StringList? ==> arg.items != [] }

  predicate ArgsFit(args: seq<Arg>)
  {
    |args| <= MAX_COMMAND_ARGUMENTS && forall i | 0 <= i < |args| :: ArgFits(args[i])
  }

  predicate TestFits(test: Test, depth: nat)
    decreases test
  {
    ArgsFit(test.args) && TestsFit(test.tests, depth)
  }

  predicate TestsFit(tests: Tests, depth: nat)
    decreases tests
  {
    match tests
    case NoTest => true
    case OneTest(test) => depth < MAX_TEST_NESTING && TestFits(test, depth + 1)
    case TestList(list) => depth < MAX_TEST_NESTING && list != [] && forall t | t in list :: TestFits(t, depth + 1)
  }

  predicate CommandFits(command: Command, depth: nat)
    decreases command
  {
    && ArgsFit(command.args) && TestsFit(command.tests, 1)
    && (command.block.Block? ==> depth < MAX_BLOCK_NESTING
                                 && forall c | c in command.block.commands :: CommandFits(c, depth + 1))
  }

  predicate CommandsFit(commands: seq<Command>, depth: nat)
  {
    forall c | c in commands :: CommandFits(c, depth)
  }

  // ----- The LL(1) recogniser: the parser on input without errors -----

  datatype Parsed<+T> = Parsed(value: T, next: nat) | Rejected

  function Peek(tokens: seq<Token>, pos: nat): (t: Token)
    ensures t != Unusable ==> pos < |tokens|
  {
    if pos < |tokens| then tokens[pos] else Unusable
  }

  predicate StartsArg(t: Token) { t.LSquare? || t.String? || t.Number? || t.Tag? }

  // The strings of a list, and its closing bracket.
  function ParseItems(tokens: seq<Token>, pos: nat): (r: Parsed<seq<string>>)
    ensures r.Parsed? ==> pos < r.next <= |tokens|
    decreases |tokens| - pos
  {
    if !Peek(tokens, pos).String? then Rejected
    else if Peek(tokens, pos + 1).RSquare? then Parsed([tokens[pos].text], pos + 2)
    else if Peek(tokens, pos + 1).Comma? then
      match ParseItems(tokens, pos + 2)
      case Rejected => Rejected
      case Parsed(items, next) => Parsed([tokens[pos].text] + items, next)
    else Rejected
  }

  function ParseArg(tokens: seq<Token>, pos: nat): (r: Parsed<Arg>)
    requires StartsArg(Peek(tokens, pos))
    ensures r.Parsed? ==> pos < r.next <= |tokens|
  {
    var t := tokens[pos];
    if t.String? then Parsed(StringArg(t.text), pos + 1)
    else if t.Number? then Parsed(NumberArg(t.value), pos + 1)
    else if t.Tag? then Parsed(TagArg(t.name), pos + 1)
    else
      match ParseItems(tokens, pos + 1)
      case Rejected => Rejected
      case Parsed(items, next) => Parsed(StringList(items), next)
  }

  // As many arguments as there are; `count` were read before.
  function ParseArgs(tokens: seq<Token>, pos: nat, count: nat): (r: Parsed<seq<Arg>>)
    requires pos <= |tokens|
    ensures r.Parsed? ==> pos <= r.next <= |tokens|
    decreases |tokens| - pos
  {
    if !StartsArg(Peek(tokens, pos)) then Parsed([], pos)
    else
      match ParseArg(tokens, pos)
      case Rejected => Rejected
      case Parsed(arg, p) =>
        if count >= MAX_COMMAND_ARGUMENTS then Rejected
        else
          match ParseArgs(tokens, p, count + 1)
          case Rejected => Rejected
          case Parsed(args, next) => Parsed([arg] + args, next)
  }

  function ParseArguments(tokens: seq<Token>, pos: nat, depth: nat): (r: Parsed<(seq<Arg>, Tests)>)
    requires pos <= |tokens|
    ensures r.Parsed? ==> pos <= r.next <= |tokens|
    decreases |tokens| - pos, 2
  {
    match ParseArgs(tokens, pos, 0)
    case Rejected => Rejected
    case Parsed(args, p) =>
      match ParseTests(tokens, p, depth)
      case Rejected => Rejected
      case Parsed(tests, next) => Parsed((args, tests), next)
  }

  function ParseTests(tokens: seq<Token>, pos: nat, depth: nat): (r: Parsed<Tests>)
    requires pos <= |tokens|
    ensures r.Parsed? ==> pos <= r.next <= |tokens|
    decreases |tokens| - pos, 1
  {
    if Peek(tokens, pos).Identifier? then
      if depth >= MAX_TEST_NESTING then Rejected
      else
        match ParseTest(tokens, pos, depth + 1)
        case Rejected => Rejected
        case Parsed(test, next) => Parsed(OneTest(test), next)
    else if Peek(tokens, pos).LBracket? then
      if depth >= MAX_TEST_NESTING then Rejected
      else
        match ParseTestList(tokens, pos + 1, depth + 1)
        case Rejected => Rejected
        case Parsed(list, next) => Parsed(TestList(list), next)
    else Parsed(NoTest, pos)
  }

  function ParseTest(tokens: seq<Token>, pos: nat, depth: nat): (r: Parsed<Test>)
    requires Peek(tokens, pos).Identifier?
    ensures r.Parsed? ==> pos < r.next <= |tokens|
    decreases |tokens| - pos, 0
  {
    match ParseArguments(tokens, pos + 1, depth)
    case Rejected => Rejected
    case Parsed(a, next) => Parsed(Test(tokens[pos].name, a.0, a.1), next)
  }

  // The tests of a list, and its closing bracket.
  function ParseTestList(tokens: seq<Token>, pos: nat, depth: nat): (r: Parsed<seq<Test>>)
    ensures r.Parsed? ==> pos < r.next <= |tokens|
    decreases |tokens| - pos, 1
  {
    if !Peek(tokens, pos).Identifier? then Rejected
    else
      match ParseTest(tokens, pos, depth)
      case Rejected => Rejected
      case Parsed(test, p) =>
        if Peek(tokens, p).RBracket? then Parsed([test], p + 1)
        else if Peek(tokens, p).Comma? then
          match ParseTestList(tokens, p + 1, depth)
          case Rejected => Rejected
          case Parsed(list, next) => Parsed([test] + list, next)
        else Rejected
  }

  function ParseBlock(tokens: seq<Token>, pos: nat, depth: nat): (r: Parsed<Block>)
    requires pos <= |tokens|
    ensures r.Parsed? ==> pos < r.next <= |tokens|
    decreases |tokens| - pos, 0
  {
    if Peek(tokens, pos).Semicolon? then Parsed(NoBlock, pos + 1)
    else if Peek(tokens, pos).LCurly? && depth < MAX_BLOCK_NESTING then
      match ParseCommands(tokens, pos + 1, depth + 1)
      case Rejected => Rejected
      case Parsed(commands, p) => if Peek(tokens, p).RCurly? then Parsed(Block(commands), p + 1) else Rejected
    else Rejected
  }

  function ParseCommand(tokens: seq<Token>, pos: nat, depth: nat): (r: Parsed<Command>)
    requires Peek(tokens, pos).Identifier?
    ensures r.Parsed? ==> pos < r.next <= |tokens|
    decreases |tokens| - pos, 0
  {
    match ParseArguments(tokens, pos + 1, 1)
    case Rejected => Rejected
    case Parsed(a, p) =>
      match ParseBlock(tokens, p, depth)
      case Rejected => Rejected
      case Parsed(block, next) => Parsed(Command(tokens[pos].name, a.0, a.1, block), next)
  }

  function ParseCommands(tokens: seq<Token>, pos: nat, depth: nat): (r: Parsed<seq<Command>>)
    requires pos <= |tokens|
    ensures r.Parsed? ==> pos <= r.next <= |tokens| && !Peek(tokens, r.next).Identifier?
    decreases |tokens| - pos, 1
  {
    if !Peek(tokens, pos).Identifier? then Parsed([], pos)
    else
      match ParseCommand(tokens, pos, depth)
      case Rejected => Rejected
      case Parsed(command, p) =>
        match ParseCommands(tokens, p, depth)
        case Rejected => Rejected
        case Parsed(commands, next) => Parsed([command] + commands, next)
  }

  // A whole script.
  function ParseScript(tokens: seq<Token>): Parsed<seq<Command>>
  {
    match ParseCommands(tokens, 0, 1)
    case Rejected => Rejected
    case Parsed(commands, next) => if next == |tokens| then Parsed(commands, next) else Rejected
  }
}
