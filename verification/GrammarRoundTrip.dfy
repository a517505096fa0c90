// Parsing and flattening undo each other: a token sequence is accepted exactly when it is the
// token sequence of a tree within the limits, and the tree built is that one.
module GrammarRoundTrip {
  import opened Grammar

  // The tokens from `from` up to `to` are `part`.
  ghost predicate Spells(tokens: seq<Token>, from: nat, to: nat, part: seq<Token>)
  {
    from <= to <= |tokens| && tokens[from..to] == part
  }

  lemma SpellsNothing(tokens: seq<Token>, at: nat)
    requires at <= |tokens|
    ensures Spells(tokens, at, at, [])
  {
  }

  lemma SpellsToken(tokens: seq<Token>, at: nat, t: Token)
    requires Peek(tokens, at) == t != Unusable
    ensures Spells(tokens, at, at + 1, [t])
  {
  }

  lemma SpellsBoth(tokens: seq<Token>, from: nat, mid: nat, to: nat, a: seq<Token>, b: seq<Token>)
    requires Spells(tokens, from, mid, a) && Spells(tokens, mid, to, b)
    ensures Spells(tokens, from, to, a + b)
  {
    assert tokens[from..to] == tokens[from..mid] + tokens[mid..to];
  }

  lemma SpellsParts(tokens: seq<Token>, from: nat, to: nat, a: seq<Token>, b: seq<Token>)
    requires Spells(tokens, from, to, a + b)
    ensures Spells(tokens, from, from + |a|, a) && Spells(tokens, from + |a|, to, b) && to == from + |a| + |b|
  {
    assert tokens[from..from + |a|] == tokens[from..to][..|a|] == a;
    assert tokens[from + |a|..to] == tokens[from..to][|a|..] == b;
  }

  lemma SpellsFirst(tokens: seq<Token>, from: nat, to: nat, part: seq<Token>)
    requires Spells(tokens, from, to, part) && part != []
    ensures Peek(tokens, from) == part[0]
  {
    assert tokens[from..to][0] == tokens[from];
  }

  // ----- What is accepted is a tree -----

  lemma {:induction false} ItemsAreSpelled(tokens: seq<Token>, pos: nat)
    ensures var r := ParseItems(tokens, pos);
            r.Parsed? ==> r.value != [] && Spells(tokens, pos, r.next, ItemTokens(r.value) + [RSquare])
    decreases |tokens| - pos
  {
    hide Spells;
    var r := ParseItems(tokens, pos);
    if r.Parsed? {
      SpellsToken(tokens, pos, tokens[pos]);
      SpellsToken(tokens, pos + 1, tokens[pos + 1]);
      SpellsBoth(tokens, pos, pos + 1, pos + 2, [tokens[pos]], [tokens[pos + 1]]);
      var two := [tokens[pos], tokens[pos + 1]];
      assert [tokens[pos]] + [tokens[pos + 1]] == two;
      if tokens[pos + 1].Comma? {
        ItemsAreSpelled(tokens, pos + 2);
        var rest := r.value[1..];
        assert rest == ParseItems(tokens, pos + 2).value;
        SpellsBoth(tokens, pos, pos + 2, r.next, two, ItemTokens(rest) + [RSquare]);
        assert two + (ItemTokens(rest) + [RSquare]) == ItemTokens(r.value) + [RSquare];
      }
    }
  }

  lemma ArgIsSpelled(tokens: seq<Token>, pos: nat)
    requires StartsArg(Peek(tokens, pos))
    ensures var r := ParseArg(tokens, pos);
            r.Parsed? ==> ArgFits(r.value) && Spells(tokens, pos, r.next, ArgTokens(r.value))
  {
    hide Spells, ItemTokens, ParseItems;
    SpellsToken(tokens, pos, tokens[pos]);
    var r := ParseArg(tokens, pos);
    if r.Parsed? && tokens[pos].LSquare? {
      ItemsAreSpelled(tokens, pos + 1);
      var items := ItemTokens(r.value.items);
      SpellsBoth(tokens, pos, pos + 1, r.next, [LSquare], items + [RSquare]);
      assert [LSquare] + (items + [RSquare]) == [LSquare] + items + [RSquare];
    }
  }

  lemma {:induction false} ArgsAreSpelled(tokens: seq<Token>, pos: nat, count: nat)
    requires pos <= |tokens| && count <= MAX_COMMAND_ARGUMENTS
    ensures var r := ParseArgs(tokens, pos, count);
            r.Parsed? ==>
              && count + |r.value| <= MAX_COMMAND_ARGUMENTS
              && (forall i | 0 <= i < |r.value| :: ArgFits(r.value[i]))
              && Spells(tokens, pos, r.next, ArgsTokens(r.value)) && !StartsArg(Peek(tokens, r.next))
    decreases |tokens| - pos
  {
    hide Spells, ArgTokens, ParseArg, ArgFits;
    var r := ParseArgs(tokens, pos, count);
    SpellsNothing(tokens, pos);
    if r.Parsed? && StartsArg(Peek(tokens, pos)) {
      var arg := ParseArg(tokens, pos);
      ArgIsSpelled(tokens, pos);
      ArgsAreSpelled(tokens, arg.next, count + 1);
      var rest := ParseArgs(tokens, arg.next, count + 1);
      assert r.value[1..] == rest.value;
      SpellsBoth(tokens, pos, arg.next, r.next, ArgTokens(arg.value), ArgsTokens(rest.value));
    }
  }

  lemma {:induction false} ArgumentsAreSpelled(tokens: seq<Token>, pos: nat, depth: nat)
    requires pos <= |tokens|
    ensures var r := ParseArguments(tokens, pos, depth);
            r.Parsed? ==> ArgsFit(r.value.0) && TestsFit(r.value.1, depth)
                          && Spells(tokens, pos, r.next, ArgsTokens(r.value.0) + TestsTokens(r.value.1))
    decreases |tokens| - pos, 2
  {
    hide Spells, ArgsTokens, TestsTokens, ArgFits, ParseArgs, ParseTests, TestsFit;
    ArgsAreSpelled(tokens, pos, 0);
    var args := ParseArgs(tokens, pos, 0);
    if args.Parsed? {
      TestsAreSpelled(tokens, args.next, depth);
      var tests := ParseTests(tokens, args.next, depth);
      if tests.Parsed? {
        SpellsBoth(tokens, pos, args.next, tests.next, ArgsTokens(args.value), TestsTokens(tests.value));
      }
    }
  }

  lemma {:induction false} TestsAreSpelled(tokens: seq<Token>, pos: nat, depth: nat)
    requires pos <= |tokens|
    ensures var r := ParseTests(tokens, pos, depth);
            r.Parsed? ==> TestsFit(r.value, depth) && Spells(tokens, pos, r.next, TestsTokens(r.value))
    decreases |tokens| - pos, 1
  {
    hide Spells, TestTokens, ListTokens, ParseTest, ParseTestList, TestFits;
    var r := ParseTests(tokens, pos, depth);
    SpellsNothing(tokens, pos);
    if r.Parsed? && r.value.OneTest? {
      TestIsSpelled(tokens, pos, depth + 1);
    } else if r.Parsed? && r.value.TestList? {
      ListIsSpelled(tokens, pos + 1, depth + 1);
      SpellsToken(tokens, pos, LBracket);
      var list := ListTokens(r.value.list);
      SpellsBoth(tokens, pos, pos + 1, r.next, [LBracket], list + [RBracket]);
      assert [LBracket] + (list + [RBracket]) == [LBracket] + list + [RBracket];
    }
  }

  lemma {:induction false} TestIsSpelled(tokens: seq<Token>, pos: nat, depth: nat)
    requires Peek(tokens, pos).Identifier?
    ensures var r := ParseTest(tokens, pos, depth);
            r.Parsed? ==> TestFits(r.value, depth) && Spells(tokens, pos, r.next, TestTokens(r.value))
    decreases |tokens| - pos, 0
  {
    hide Spells, ArgsTokens, TestsTokens, ParseArguments, TestsFit, ArgsFit;
    var r := ParseTest(tokens, pos, depth);
    if r.Parsed? {
      ArgumentsAreSpelled(tokens, pos + 1, depth);
      var name := Identifier(r.value.name);
      var args, tests := ArgsTokens(r.value.args), TestsTokens(r.value.tests);
      SpellsToken(tokens, pos, name);
      SpellsBoth(tokens, pos, pos + 1, r.next, [name], args + tests);
      assert [name] + (args + tests) == [name] + args + tests;
    }
  }

  lemma {:induction false} ListIsSpelled(tokens: seq<Token>, pos: nat, depth: nat)
    ensures var r := ParseTestList(tokens, pos, depth);
            r.Parsed? ==> r.value != [] && (forall t | t in r.value :: TestFits(t, depth))
                          && Spells(tokens, pos, r.next, ListTokens(r.value) + [RBracket])
    decreases |tokens| - pos, 1
  {
    hide Spells, TestTokens, ParseTest, TestFits;
    var r := ParseTestList(tokens, pos, depth);
    if r.Parsed? {
      TestIsSpelled(tokens, pos, depth);
      var first := ParseTest(tokens, pos, depth);
      var p := first.next;
      SpellsToken(tokens, p, tokens[p]);
      var head := TestTokens(first.value);
      SpellsBoth(tokens, pos, p, p + 1, head, [tokens[p]]);
      if tokens[p].Comma? {
        ListIsSpelled(tokens, p + 1, depth);
        var rest := ParseTestList(tokens, p + 1, depth);
        assert r.value[1..] == rest.value;
        SpellsBoth(tokens, pos, p + 1, r.next, head + [Comma], ListTokens(rest.value) + [RBracket]);
        assert head + [Comma] + (ListTokens(rest.value) + [RBracket]) == ListTokens(r.value) + [RBracket];
      }
    }
  }

  lemma {:induction false} BlockIsSpelled(tokens: seq<Token>, pos: nat, depth: nat)
    requires pos <= |tokens|
    ensures var r := ParseBlock(tokens, pos, depth);
            r.Parsed? ==> (r.value.Block? ==> depth < MAX_BLOCK_NESTING && CommandsFit(r.value.commands, depth + 1))
                          && Spells(tokens, pos, r.next, BlockTokens(r.value))
    decreases |tokens| - pos, 0
  {
    hide Spells, CommandsTokens, ParseCommands, CommandsFit;
    var r := ParseBlock(tokens, pos, depth);
    if r.Parsed? {
      SpellsToken(tokens, pos, tokens[pos]);
      if r.value.Block? {
        CommandsAreSpelled(tokens, pos + 1, depth + 1);
        var commands := CommandsTokens(r.value.commands);
        SpellsToken(tokens, r.next - 1, RCurly);
        SpellsBoth(tokens, pos, pos + 1, r.next - 1, [LCurly], commands);
        SpellsBoth(tokens, pos, r.next - 1, r.next, [LCurly] + commands, [RCurly]);
      }
    }
  }

  lemma {:induction false} CommandIsSpelled(tokens: seq<Token>, pos: nat, depth: nat)
    requires Peek(tokens, pos).Identifier?
    ensures var r := ParseCommand(tokens, pos, depth);
            r.Parsed? ==> CommandFits(r.value, depth) && Spells(tokens, pos, r.next, CommandTokens(r.value))
    decreases |tokens| - pos, 0
  {
    hide Spells, ArgsTokens, TestsTokens, BlockTokens, ParseArguments, ParseBlock, TestsFit, ArgsFit;
    var r := ParseCommand(tokens, pos, depth);
    if r.Parsed? {
      var a := ParseArguments(tokens, pos + 1, 1);
      ArgumentsAreSpelled(tokens, pos + 1, 1);
      BlockIsSpelled(tokens, a.next, depth);
      var name := Identifier(r.value.name);
      var args, tests := ArgsTokens(r.value.args), TestsTokens(r.value.tests);
      SpellsToken(tokens, pos, name);
      SpellsBoth(tokens, pos, pos + 1, a.next, [name], args + tests);
      assert [name] + (args + tests) == [name] + args + tests;
      SpellsBoth(tokens, pos, a.next, r.next, [name] + args + tests, BlockTokens(r.value.block));
    }
  }

  lemma {:induction false} CommandsAreSpelled(tokens: seq<Token>, pos: nat, depth: nat)
    requires pos <= |tokens|
    ensures var r := ParseCommands(tokens, pos, depth);
            r.Parsed? ==> CommandsFit(r.value, depth) && Spells(tokens, pos, r.next, CommandsTokens(r.value))
    decreases |tokens| - pos, 1
  {
    hide Spells, CommandTokens, ParseCommand, CommandFits;
    var r := ParseCommands(tokens, pos, depth);
    SpellsNothing(tokens, pos);
    if r.Parsed? && Peek(tokens, pos).Identifier? {
      CommandIsSpelled(tokens, pos, depth);
      var first := ParseCommand(tokens, pos, depth);
      CommandsAreSpelled(tokens, first.next, depth);
      var rest := ParseCommands(tokens, first.next, depth);
      assert r.value[1..] == rest.value;
      SpellsBoth(tokens, pos, first.next, r.next, CommandTokens(first.value), CommandsTokens(rest.value));
    }
  }

  // ----- Every tree is accepted -----

  lemma {:induction false} ItemsParse(tokens: seq<Token>, pos: nat, to: nat, items: seq<string>)
    requires items != [] && Spells(tokens, pos, to, ItemTokens(items) + [RSquare])
    ensures ParseItems(tokens, pos) == Parsed(items, to)
    decreases |items|
  {
    hide Spells;
    var s := String(items[0]);
    if |items| == 1 {
      SpellsParts(tokens, pos, to, [s], [RSquare]);
      SpellsFirst(tokens, pos, pos + 1, [s]);
      SpellsFirst(tokens, pos + 1, to, [RSquare]);
      assert [items[0]] == items;
    } else {
      var rest := ItemTokens(items[1..]) + [RSquare];
      assert ItemTokens(items) + [RSquare] == [s] + ([Comma] + rest);
      SpellsParts(tokens, pos, to, [s], [Comma] + rest);
      SpellsFirst(tokens, pos, pos + 1, [s]);
      SpellsParts(tokens, pos + 1, to, [Comma], rest);
      SpellsFirst(tokens, pos + 1, pos + 2, [Comma]);
      ItemsParse(tokens, pos + 2, to, items[1..]);
      assert [items[0]] + items[1..] == items;
    }
  }

  lemma ArgParses(tokens: seq<Token>, pos: nat, to: nat, arg: Arg)
    requires ArgFits(arg) && Spells(tokens, pos, to, ArgTokens(arg))
    ensures StartsArg(Peek(tokens, pos)) && ParseArg(tokens, pos) == Parsed(arg, to)
  {
    hide ItemTokens, ParseItems;
    SpellsFirst(tokens, pos, to, ArgTokens(arg));
    if arg.StringList? {
      var items := ItemTokens(arg.items);
      assert [LSquare] + items + [RSquare] == [LSquare] + (items + [RSquare]);
      SpellsParts(tokens, pos, to, [LSquare], items + [RSquare]);
      ItemsParse(tokens, pos + 1, to, arg.items);
    }
  }

  lemma {:induction false} ArgsParse(tokens: seq<Token>, pos: nat, to: nat, args: seq<Arg>, count: nat)
    requires count + |args| <= MAX_COMMAND_ARGUMENTS && forall i | 0 <= i < |args| :: ArgFits(args[i])
    requires Spells(tokens, pos, to, ArgsTokens(args)) && !StartsArg(Peek(tokens, to))
    ensures ParseArgs(tokens, pos, count) == Parsed(args, to)
    decreases |args|
  {
    hide ArgTokens, ParseArg, ArgFits;
    if args != [] {
      var first := ArgTokens(args[0]);
      SpellsParts(tokens, pos, to, first, ArgsTokens(args[1..]));
      ArgParses(tokens, pos, pos + |first|, args[0]);
      ArgsParse(tokens, pos + |first|, to, args[1..], count + 1);
      assert [args[0]] + args[1..] == args;
    }
  }

  // What may stand behind the arguments of a command or a test.
  predicate Follows(t: Token) { t.Comma? || t.RBracket? || t.Semicolon? || t.LCurly? }

  lemma TestsStart(tokens: seq<Token>, pos: nat, to: nat, tests: Tests)
    requires Spells(tokens, pos, to, TestsTokens(tests)) && Follows(Peek(tokens, to))
    ensures !StartsArg(Peek(tokens, pos))
    ensures tests.NoTest? ==> pos == to
    ensures tests.OneTest? ==> Peek(tokens, pos) == Identifier(tests.test.name)
    ensures tests.TestList? ==> Peek(tokens, pos) == LBracket
  {
    hide ArgsTokens, ListTokens;
    match tests {
      case NoTest =>
      case OneTest(test) => SpellsFirst(tokens, pos, to, TestTokens(test));
      case TestList(list) => SpellsFirst(tokens, pos, to, TestsTokens(tests));
    }
  }

  lemma {:induction false} ArgumentsParse(tokens: seq<Token>, pos: nat, to: nat, args: seq<Arg>, tests: Tests,
                                          depth: nat)
    requires ArgsFit(args) && TestsFit(tests, depth) && Follows(Peek(tokens, to))
    requires Spells(tokens, pos, to, ArgsTokens(args) + TestsTokens(tests))
    ensures ParseArguments(tokens, pos, depth) == Parsed((args, tests), to)
    decreases tests, 1
  {
    hide ArgsTokens, TestsTokens, ArgFits, ParseArgs, ParseTests, TestsFit;
    var p := pos + |ArgsTokens(args)|;
    SpellsParts(tokens, pos, to, ArgsTokens(args), TestsTokens(tests));
    TestsStart(tokens, p, to, tests);
    ArgsParse(tokens, pos, p, args, 0);
    TestsParse(tokens, p, to, tests, depth);
  }

  lemma {:induction false} TestsParse(tokens: seq<Token>, pos: nat, to: nat, tests: Tests, depth: nat)
    requires TestsFit(tests, depth) && Follows(Peek(tokens, to)) && Spells(tokens, pos, to, TestsTokens(tests))
    ensures ParseTests(tokens, pos, depth) == Parsed(tests, to)
    decreases tests, 0
  {
    TestsStart(tokens, pos, to, tests);
    hide TestTokens, ListTokens, ParseTest, ParseTestList, TestFits;
    match tests {
      case NoTest =>
      case OneTest(test) => TestParses(tokens, pos, to, test, depth + 1);
      case TestList(list) =>
        assert [LBracket] + ListTokens(list) + [RBracket] == [LBracket] + (ListTokens(list) + [RBracket]);
        SpellsParts(tokens, pos, to, [LBracket], ListTokens(list) + [RBracket]);
        ListParses(tokens, pos + 1, to, list, depth + 1);
    }
  }

  lemma {:induction false} TestParses(tokens: seq<Token>, pos: nat, to: nat, test: Test, depth: nat)
    requires TestFits(test, depth) && Follows(Peek(tokens, to)) && Spells(tokens, pos, to, TestTokens(test))
    ensures Peek(tokens, pos).Identifier? && ParseTest(tokens, pos, depth) == Parsed(test, to)
    decreases test, 0
  {
    hide ArgsTokens, TestsTokens, ParseArguments, TestsFit, ArgsFit;
    var name, args, tests := Identifier(test.name), ArgsTokens(test.args), TestsTokens(test.tests);
    SpellsFirst(tokens, pos, to, TestTokens(test));
    assert [name] + args + tests == [name] + (args + tests);
    SpellsParts(tokens, pos, to, [name], args + tests);
    ArgumentsParse(tokens, pos + 1, to, test.args, test.tests, depth);
  }

  lemma Regroup(a: seq<Token>, b: seq<Token>, c: seq<Token>, d: seq<Token>)
    ensures a + b + c + d == a + (b + (c + d))
  {
  }

  lemma {:induction false} LongListTokens(list: seq<Test>)
    requires |list| > 1
    ensures ListTokens(list) + [RBracket] == TestTokens(list[0]) + ([Comma] + (ListTokens(list[1..]) + [RBracket]))
  {
    hide TestTokens;
    Regroup(TestTokens(list[0]), [Comma], ListTokens(list[1..]), [RBracket]);
  }

  lemma {:induction false} ListParses(tokens: seq<Token>, pos: nat, to: nat, list: seq<Test>, depth: nat)
    requires list != [] && forall t | t in list :: TestFits(t, depth)
    requires Spells(tokens, pos, to, ListTokens(list) + [RBracket])
    ensures ParseTestList(tokens, pos, depth) == Parsed(list, to)
    decreases list, 1
  {
    hide Spells, TestTokens, ParseTest, TestFits;
    var first := TestTokens(list[0]);
    var p := pos + |first|;
    if |list| == 1 {
      SpellsParts(tokens, pos, to, first, [RBracket]);
      SpellsFirst(tokens, p, to, [RBracket]);
      TestParses(tokens, pos, p, list[0], depth);
      assert [list[0]] == list;
    } else {
      var rest := ListTokens(list[1..]) + [RBracket];
      LongListTokens(list);
      SpellsParts(tokens, pos, to, first, [Comma] + rest);
      SpellsParts(tokens, p, to, [Comma], rest);
      SpellsFirst(tokens, p, p + 1, [Comma]);
      TestParses(tokens, pos, p, list[0], depth);
      ListParses(tokens, p + 1, to, list[1..], depth);
      assert [list[0]] + list[1..] == list;
    }
  }

  lemma {:induction false} BlockParses(tokens: seq<Token>, pos: nat, to: nat, block: Block, depth: nat)
    requires block.Block? ==> depth < MAX_BLOCK_NESTING && CommandsFit(block.commands, depth + 1)
    requires Spells(tokens, pos, to, BlockTokens(block))
    ensures (Peek(tokens, pos).Semicolon? || Peek(tokens, pos).LCurly?)
            && ParseBlock(tokens, pos, depth) == Parsed(block, to)
    decreases block, 0
  {
    hide CommandsTokens, ParseCommands, CommandsFit;
    SpellsFirst(tokens, pos, to, BlockTokens(block));
    if block.Block? {
      var commands := CommandsTokens(block.commands);
      assert [LCurly] + commands + [RCurly] == [LCurly] + (commands + [RCurly]);
      SpellsParts(tokens, pos, to, [LCurly], commands + [RCurly]);
      SpellsParts(tokens, pos + 1, to, commands, [RCurly]);
      SpellsFirst(tokens, to - 1, to, [RCurly]);
      CommandsParse(tokens, pos + 1, to - 1, block.commands, depth + 1);
    }
  }

  lemma {:induction false} CommandParses(tokens: seq<Token>, pos: nat, to: nat, command: Command, depth: nat)
    requires CommandFits(command, depth) && Spells(tokens, pos, to, CommandTokens(command))
    ensures Peek(tokens, pos).Identifier? && ParseCommand(tokens, pos, depth) == Parsed(command, to)
    decreases command, 0
  {
    hide Spells, ArgsTokens, TestsTokens, BlockTokens, ParseArguments, ParseBlock, TestsFit, ArgsFit;
    var name, args, tests := Identifier(command.name), ArgsTokens(command.args), TestsTokens(command.tests);
    var block := BlockTokens(command.block);
    assert [name] + args + tests + block == [name] + ((args + tests) + block);
    SpellsFirst(tokens, pos, to, [name] + ((args + tests) + block));
    SpellsParts(tokens, pos, to, [name], (args + tests) + block);
    SpellsParts(tokens, pos + 1, to, args + tests, block);
    var p := pos + 1 + |args + tests|;
    BlockParses(tokens, p, to, command.block, depth);
    ArgumentsParse(tokens, pos + 1, p, command.args, command.tests, 1);
  }

  lemma {:induction false} CommandsParse(tokens: seq<Token>, pos: nat, to: nat, commands: seq<Command>, depth: nat)
    requires CommandsFit(commands, depth) && Spells(tokens, pos, to, CommandsTokens(commands))
    requires !Peek(tokens, to).Identifier?
    ensures ParseCommands(tokens, pos, depth) == Parsed(commands, to)
    decreases commands, 1
  {
    hide CommandTokens, ParseCommand, CommandFits;
    if commands != [] {
      var first := CommandTokens(commands[0]);
      SpellsParts(tokens, pos, to, first, CommandsTokens(commands[1..]));
      CommandParses(tokens, pos, pos + |first|, commands[0], depth);
      CommandsParse(tokens, pos + |first|, to, commands[1..], depth);
      assert [commands[0]] + commands[1..] == commands;
    }
  }

  // ----- The round trip -----

  lemma ScriptParsesBack(commands: seq<Command>)
    requires CommandsFit(commands, 1)
    ensures ParseScript(CommandsTokens(commands)) == Parsed(commands, |CommandsTokens(commands)|)
  {
    hide CommandsTokens, ParseCommands, CommandsFit;
    var tokens := CommandsTokens(commands);
    assert tokens[0..|tokens|] == tokens;
    CommandsParse(tokens, 0, |tokens|, commands, 1);
  }

  lemma ScriptIsSpelled(tokens: seq<Token>)
    ensures var r := ParseScript(tokens);
            r.Parsed? ==> CommandsFit(r.value, 1) && CommandsTokens(r.value) == tokens
  {
    hide CommandsTokens, ParseCommands, CommandsFit;
    CommandsAreSpelled(tokens, 0, 1);
    assert tokens[0..|tokens|] == tokens;
  }

  // Accepted exactly when some tree within the limits has these tokens; and it has one tree only.
  lemma AcceptedExactlyWhenSpelled(tokens: seq<Token>)
    ensures ParseScript(tokens).Parsed?
            <==> exists commands :: CommandsFit(commands, 1) && CommandsTokens(commands) == tokens
    ensures forall commands | CommandsFit(commands, 1) && CommandsTokens(commands) == tokens ::
              ParseScript(tokens) == Parsed(commands, |tokens|)
  {
    hide CommandsTokens, ParseScript, CommandsFit;
    ScriptIsSpelled(tokens);
    forall commands | CommandsFit(commands, 1) && CommandsTokens(commands) == tokens
      ensures ParseScript(tokens) == Parsed(commands, |tokens|)
    {
      ScriptParsesBack(commands);
    }
  }
}
