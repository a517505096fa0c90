// The recursive-descent parser with its error recovery (src/lib-sieve/sieve-parser.c). On every
// token sequence it ends, and it is valid at the end exactly when the recogniser accepts.
module Parser {
  import opened Grammar
  import opened GrammarRoundTrip

  // ----- Error recovery -----

  predicate IsEnd(t: Token) { t.RSquare? || t.RBracket? || t.Semicolon? || t.RCurly? }

  function Priority(t: Token): int
  {
    match t
    case LCurly => 3
    case RCurly => 3
    case Semicolon => 2
    case LBracket => 1
    case RBracket => 1
    case LSquare => 0
    case RSquare => 0
    case _ => -1
  }

  // `t` begins what `end` closes; nothing begins a command.
  predicate Opens(t: Token, end: Token)
  {
    (t.LSquare? && end.RSquare?) || (t.LBracket? && end.RBracket?) || (t.LCurly? && end.RCurly?)
  }

  // `t` belongs to a structure around the one that `end` closes: recovery must not go past it.
  predicate Surrounds(t: Token, end: Token)
  {
    match end
    case RSquare => t.LBracket? || t.RBracket? || t.Semicolon? || t.LCurly? || t.RCurly?
    case RBracket => t.Semicolon? || t.LCurly? || t.RCurly?
    case Semicolon => t.LCurly? || t.RCurly?
    case _ => false
  }

  lemma PriorityIsSurrounding(t: Token, end: Token)
    requires IsEnd(end)
    ensures Priority(t) > Priority(end) <==> Surrounds(t, end)
  {
  }

  // How many structures closed by `end` are open at `to`, the failed one included.
  function Nesting(tokens: seq<Token>, from: nat, to: nat, end: Token): int
    requires from <= to <= |tokens|
  {
    if from == to then 1
    else
      Nesting(tokens, from, to - 1, end)
      + (if Opens(tokens[to - 1], end) then 1 else if tokens[to - 1] == end then -1 else 0)
  }

  // Where recovery from `from` must stop: at the end of the input, at a token of a surrounding
  // structure, or at the token that closes the failed one.
  predicate Stops(tokens: seq<Token>, from: nat, p: nat, end: Token)
    requires from <= p <= |tokens|
  {
    p == |tokens| || Surrounds(tokens[p], end) || (tokens[p] == end && Nesting(tokens, from, p, end) == 1)
  }

  // ----- How a method agrees with the recogniser -----

  // Valid afterwards exactly when valid before and accepted; and then the same tree and position.
  predicate Agrees<T(==)>(before: bool, after: bool, result: int, r: Parsed<T>, value: T, pos: nat)
  {
    if before && r.Parsed? then after && result == 1 && r == Parsed(value, pos) else !after
  }

  function Onto<T>(front: seq<T>, r: Parsed<seq<T>>): Parsed<seq<T>>
  {
    match r
    case Rejected => Rejected
    case Parsed(value, next) => Parsed(front + value, next)
  }

  lemma OntoOnto<T>(front: seq<T>, item: T, r: Parsed<seq<T>>)
    ensures Onto(front, Onto([item], r)) == Onto(front + [item], r)
  {
    if r.Parsed? { assert front + ([item] + r.value) == front + [item] + r.value; }
  }

  lemma OntoNothing<T>(r: Parsed<seq<T>>)
    ensures Onto([], r) == r
  {
    if r.Parsed? { assert [] + r.value == r.value; }
  }

  // ----- One round of each loop -----

  lemma MoreItems(tokens: seq<Token>, pos: nat, front: seq<string>)
    requires Peek(tokens, pos).String?
    ensures var r := ParseItems(tokens, pos); var text := tokens[pos].text;
            if Peek(tokens, pos + 1).Comma? then Onto(front, r) == Onto(front + [text], ParseItems(tokens, pos + 2))
            else if Peek(tokens, pos + 1).RSquare? then Onto(front, r) == Parsed(front + [text], pos + 2)
            else r.Rejected?
  {
    OntoOnto(front, tokens[pos].text, ParseItems(tokens, pos + 2));
  }

  lemma NoItems(tokens: seq<Token>, pos: nat)
    requires !Peek(tokens, pos).String?
    ensures ParseItems(tokens, pos).Rejected?
  {
  }

  lemma MoreArgs(tokens: seq<Token>, pos: nat, front: seq<Arg>)
    requires pos <= |tokens|
    ensures var r := ParseArgs(tokens, pos, |front|);
            if !StartsArg(Peek(tokens, pos)) then Onto(front, r) == Parsed(front, pos)
            else if ParseArg(tokens, pos).Rejected? || |front| >= MAX_COMMAND_ARGUMENTS then r.Rejected?
            else var arg := ParseArg(tokens, pos);
                 Onto(front, r) == Onto(front + [arg.value], ParseArgs(tokens, arg.next, |front| + 1))
  {
    hide ParseArg;
    assert front + [] == front;
    if StartsArg(Peek(tokens, pos)) {
      var arg := ParseArg(tokens, pos);
      if arg.Parsed? { OntoOnto(front, arg.value, ParseArgs(tokens, arg.next, |front| + 1)); }
    }
  }

  lemma MoreTests(tokens: seq<Token>, pos: nat, depth: nat, front: seq<Test>)
    ensures var r := ParseTestList(tokens, pos, depth);
            if !Peek(tokens, pos).Identifier? then r.Rejected?
            else var test := ParseTest(tokens, pos, depth);
                 if test.Rejected? then r.Rejected?
                 else if Peek(tokens, test.next).Comma? then
                   Onto(front, r) == Onto(front + [test.value], ParseTestList(tokens, test.next + 1, depth))
                 else if Peek(tokens, test.next).RBracket? then
                   Onto(front, r) == Parsed(front + [test.value], test.next + 1)
                 else r.Rejected?
  {
    hide ParseTest;
    if Peek(tokens, pos).Identifier? {
      var test := ParseTest(tokens, pos, depth);
      if test.Parsed? { OntoOnto(front, test.value, ParseTestList(tokens, test.next + 1, depth)); }
    }
  }

  class Parser {
    const tokens: seq<Token>
    var pos: nat
    var valid: bool

    constructor (tokens: seq<Token>)
      ensures this.tokens == tokens && pos == 0 && valid
    {
      this.tokens := tokens;
      pos, valid := 0, true;
    }

    // sieve_errors_more_allowed: depends on what was logged and on the administrator's limit.
    method MoreErrorsAllowed() returns (allowed: bool)
    {
      if * { allowed := true; } else { allowed := false; }
    }

    method Recover(end: Token) returns (result: int)
      requires IsEnd(end) && pos <= |tokens|
      modifies this`pos
      ensures old(pos) <= pos <= |tokens| && Stops(tokens, old(pos), pos, end)
      ensures forall p | old(pos) <= p < pos :: !Stops(tokens, old(pos), p, end)
      ensures result == if Peek(tokens, pos) == end || (end.Semicolon? && Peek(tokens, pos).LCurly?) then 1 else 0
    {
      var nesting: int := 1;
      while pos < |tokens| && Priority(tokens[pos]) <= Priority(end)
        invariant old(pos) <= pos <= |tokens| && nesting == Nesting(tokens, old(pos), pos, end)
        invariant forall p | old(pos) <= p < pos :: !Stops(tokens, old(pos), p, end)
        decreases |tokens| - pos
      {
        PriorityIsSurrounding(tokens[pos], end);
        if Opens(tokens[pos], end) {
          nesting := nesting + 1;
          pos := pos + 1;
          continue;
        }
        if tokens[pos] == end {
          nesting := nesting - 1;
          if nesting == 0 { return 1; }
        }
        pos := pos + 1;
      }
      if pos < |tokens| { PriorityIsSurrounding(tokens[pos], end); }
      if end.Semicolon? && Peek(tokens, pos).LCurly? { return 1; }
      result := 0;
    }

    // From '[' on.
    method ParseStringList() returns (result: int, items: seq<string>)
      requires Peek(tokens, pos).LSquare?
      modifies this
      ensures Agrees(old(valid), valid, result, ParseItems(tokens, old(pos) + 1), items, pos)
      ensures 0 <= result <= 1 && old(pos) < pos <= |tokens|
    {
      hide ParseItems;
      pos := pos + 1;
      result, items := ParseStrings();
      if Peek(tokens, pos).RSquare? {
        pos := pos + 1;
      } else {
        valid := false;
        result := Recover(RSquare);
        if result > 0 { pos := pos + 1; }
      }
    }

    // The strings of a list, up to where its closing bracket should be.
    method ParseStrings() returns (result: int, items: seq<string>)
      requires pos <= |tokens|
      modifies this
      ensures valid ==> old(valid) && result == 1
                        && (if Peek(tokens, pos).RSquare? then ParseItems(tokens, old(pos)) == Parsed(items, pos + 1)
                            else ParseItems(tokens, old(pos)).Rejected?)
      ensures old(valid) && !valid ==> ParseItems(tokens, old(pos)).Rejected?
      ensures 0 <= result <= 1 && old(pos) <= pos <= |tokens|
    {
      hide ParseItems, Stops, Nesting;
      result, items := 1, [];
      ghost var goal := ParseItems(tokens, pos);
      if !Peek(tokens, pos).String? {
        NoItems(tokens, pos);
        valid := false;
        result := Recover(RSquare);
        return;
      }
      OntoNothing(goal);
      // All strings but the last one.
      ghost var front: seq<string> := [];
      items := [tokens[pos].text];
      pos := pos + 1;
      var broken := false;
      while !broken && Peek(tokens, pos).Comma?
        invariant old(pos) < pos <= |tokens| && 0 <= result <= 1
        invariant valid ==> old(valid) && !broken && result == 1
                            && tokens[pos - 1].String? && items == front + [tokens[pos - 1].text]
                            && goal == Onto(front, ParseItems(tokens, pos - 1))
        invariant old(valid) && !valid ==> goal.Rejected?
        decreases |tokens| - pos
      {
        if valid { MoreItems(tokens, pos - 1, front); }
        pos := pos + 1;
        var allowed := MoreErrorsAllowed();
        if !valid && !allowed {
          result := Recover(RSquare);
          broken := true;
        } else if Peek(tokens, pos).String? {
          front := items;
          items := items + [tokens[pos].text];
          pos := pos + 1;
        } else {
          NoItems(tokens, pos);
          valid := false;
          result := Recover(RSquare);
          broken := true;
        }
      }
      if valid { MoreItems(tokens, pos - 1, front); }
    }

    // The arguments in front of the tests.
    method ParseArgList() returns (result: int, args: seq<Arg>)
      requires pos <= |tokens|
      modifies this
      ensures Agrees(old(valid), valid, result, ParseArgs(tokens, old(pos), 0), args, pos)
      ensures 0 <= result <= 1 && old(pos) <= pos <= |tokens|
    {
      hide ParseItems, ParseArgs;
      result, args := 1, [];
      ghost var goal := ParseArgs(tokens, pos, 0);
      OntoNothing(goal);
      var present := true;
      while present && result > 0
        invariant old(pos) <= pos <= |tokens| && 0 <= result <= 1
        invariant valid ==> old(valid) && result == 1 && |args| <= MAX_COMMAND_ARGUMENTS
                            && goal == if present then Onto(args, ParseArgs(tokens, pos, |args|)) else Parsed(args, pos)
        invariant old(valid) && !valid ==> goal.Rejected?
        decreases |tokens| - pos, present
      {
        if valid { MoreArgs(tokens, pos, args); }
        var allowed := MoreErrorsAllowed();
        if !valid && !allowed {
          result := 0;
          break;
        }
        var t := Peek(tokens, pos);
        if t.LSquare? {
          var items;
          result, items := ParseStringList();
          args := args + [StringList(items)];
        } else if t.String? {
          args := args + [StringArg(t.text)];
          pos := pos + 1;
        } else if t.Number? {
          args := args + [NumberArg(t.value)];
          pos := pos + 1;
        } else if t.Tag? {
          args := args + [TagArg(t.name)];
          pos := pos + 1;
        } else {
          present := false;
        }
        if |args| > MAX_COMMAND_ARGUMENTS {
          valid := false;
          return 0, args;
        }
      }
    }

    method ParseArgumentsOf(depth: nat) returns (result: int, args: seq<Arg>, tests: Tests)
      requires pos <= |tokens|
      modifies this
      ensures Agrees(old(valid), valid, result, ParseArguments(tokens, old(pos), depth), (args, tests), pos)
      ensures 0 <= result <= 1 && old(pos) <= pos <= |tokens|
      decreases |tokens| - pos, 3
    {
      hide ParseArgs, ParseTests;
      tests := NoTest;
      result, args := ParseArgList();
      if result <= 0 { return; }
      result, tests := ParseTestPart(depth);
    }

    method ParseTestPart(depth: nat) returns (result: int, tests: Tests)
      requires pos <= |tokens|
      modifies this
      ensures Agrees(old(valid), valid, result, ParseTests(tokens, old(pos), depth), tests, pos)
      ensures 0 <= result <= 1 && old(pos) <= pos <= |tokens|
      decreases |tokens| - pos, 2
    {
      hide ParseArguments, ParseTestList;
      result, tests := 1, NoTest;
      var t := Peek(tokens, pos);
      if t.Identifier? {
        if depth + 1 > MAX_TEST_NESTING {
          valid := false;
          return 0, NoTest;
        }
        pos := pos + 1;
        var inner, args, subtests := ParseArgumentsOf(depth + 1);
        if inner <= 0 { return 0, NoTest; }
        tests := OneTest(Test(t.name, args, subtests));
      } else if t.LBracket? {
        if depth + 1 > MAX_TEST_NESTING {
          pos := pos + 1;
          valid := false;
          result := Recover(RBracket);
          if result > 0 { pos := pos + 1; }
          return;
        }
        var list;
        result, list := ParseTestListOf(depth + 1);
        tests := TestList(list);
      }
    }

    // From '(' on.
    method ParseTestListOf(depth: nat) returns (result: int, list: seq<Test>)
      requires Peek(tokens, pos).LBracket?
      modifies this
      ensures Agrees(old(valid), valid, result, ParseTestList(tokens, old(pos) + 1, depth), list, pos)
      ensures 0 <= result <= 1 && old(pos) < pos <= |tokens|
      decreases |tokens| - pos, 1
    {
      hide ParseTestList;
      pos := pos + 1;
      ghost var start := pos;
      result, list := ParseTestItems(depth);
      if Peek(tokens, pos).RBracket? {
        pos := pos + 1;
      } else {
        valid := false;
        result := Recover(RBracket);
        if result > 0 { pos := pos + 1; }
      }
    }

    // The tests of a list, up to where its closing bracket should be.
    method ParseTestItems(depth: nat) returns (result: int, list: seq<Test>)
      requires pos <= |tokens|
      modifies this
      ensures valid ==> old(valid) && result == 1
                        && (if Peek(tokens, pos).RBracket?
                            then ParseTestList(tokens, old(pos), depth) == Parsed(list, pos + 1)
                            else ParseTestList(tokens, old(pos), depth).Rejected?)
      ensures old(valid) && !valid ==> ParseTestList(tokens, old(pos), depth).Rejected?
      ensures 0 <= result <= 1 && old(pos) <= pos <= |tokens|
      decreases |tokens| - pos, 4
    {
      hide ParseTest, ParseTestList, Stops, Nesting;
      ghost var goal := ParseTestList(tokens, pos, depth);
      // Where the last test begins, and the tests in front of it.
      ghost var at := pos;
      ghost var front: seq<Test> := [];
      list := [];
      MoreTests(tokens, pos, depth, front);
      if !Peek(tokens, pos).Identifier? {
        valid := false;
        result := Recover(RBracket);
        return;
      }
      OntoNothing(goal);
      var test;
      result, test := ParseTestItem(depth);
      list := [test];
      if result <= 0 {
        result := Recover(RBracket);
        return;
      }
      var broken := false;
      while !broken && Peek(tokens, pos).Comma?
        invariant old(pos) <= at < pos <= |tokens| && 0 <= result <= 1
        invariant valid ==> old(valid) && !broken && result == 1 && list == front + [test]
                            && Peek(tokens, at).Identifier? && ParseTest(tokens, at, depth) == Parsed(test, pos)
                            && goal == Onto(front, ParseTestList(tokens, at, depth))
        invariant old(valid) && !valid ==> goal.Rejected?
        decreases |tokens| - pos
      {
        if valid { MoreTests(tokens, at, depth, front); }
        pos := pos + 1;
        if valid { MoreTests(tokens, pos, depth, list); }
        var allowed := MoreErrorsAllowed();
        if !valid && !allowed {
          result := Recover(RBracket);
          broken := true;
        } else if Peek(tokens, pos).Identifier? {
          front, at := list, pos;
          result, test := ParseTestItem(depth);
          list := list + [test];
          if result <= 0 {
            result := Recover(RBracket);
            broken := true;
          }
        } else {
          valid := false;
          result := Recover(RBracket);
          broken := true;
        }
      }
      if valid { MoreTests(tokens, at, depth, front); }
    }

    method ParseTestItem(depth: nat) returns (result: int, test: Test)
      requires Peek(tokens, pos).Identifier?
      modifies this
      ensures Agrees(old(valid), valid, result, ParseTest(tokens, old(pos), depth), test, pos)
      ensures 0 <= result <= 1 && old(pos) < pos <= |tokens|
      decreases |tokens| - pos, 0
    {
      hide ParseArguments;
      var name := tokens[pos].name;
      pos := pos + 1;
      var args, tests;
      result, args, tests := ParseArgumentsOf(depth);
      test := Test(name, args, tests);
    }

    method ParseCommandsOf(depth: nat) returns (result: int, commands: seq<Command>)
      requires pos <= |tokens|
      modifies this
      ensures Agrees(old(valid), valid, result, ParseCommands(tokens, old(pos), depth), commands, pos)
      ensures 0 <= result <= 1 && old(pos) <= pos <= |tokens|
      decreases |tokens| - pos, 1
    {
      hide ParseCommand;
      result, commands := 1, [];
      ghost var goal := ParseCommands(tokens, pos, depth);
      OntoNothing(goal);
      while result > 0 && Peek(tokens, pos).Identifier?
        invariant old(pos) <= pos <= |tokens| && 0 <= result <= 1
        invariant valid ==> old(valid) && result == 1 && goal == Onto(commands, ParseCommands(tokens, pos, depth))
        invariant old(valid) && !valid ==> goal.Rejected?
        decreases |tokens| - pos
      {
        var allowed := MoreErrorsAllowed();
        if !valid && !allowed {
          result := Recover(Semicolon);
          break;
        }
        var command;
        result, command := ParseCommandOf(depth);
        if valid { OntoOnto(commands, command, ParseCommands(tokens, pos, depth)); }
        commands := commands + [command];
      }
      assert commands + [] == commands;
    }

    method ParseCommandOf(depth: nat) returns (result: int, command: Command)
      requires Peek(tokens, pos).Identifier?
      modifies this
      ensures Agrees(old(valid), valid, result, ParseCommand(tokens, old(pos), depth), command, pos)
      ensures 0 <= result <= 1 && old(pos) < pos <= |tokens|
      decreases |tokens| - pos, 0
    {
      hide ParseArguments, ParseCommands;
      var name := tokens[pos].name;
      pos := pos + 1;
      var args, tests;
      result, args, tests := ParseArgumentsOf(1);
      command := Command(name, args, tests, NoBlock);
      if result > 0 && !Peek(tokens, pos).Semicolon? && !Peek(tokens, pos).LCurly? {
        valid := false;
        result := 0;
      }
      if result == 0 { result := Recover(Semicolon); }
      if result <= 0 { return; }
      if Peek(tokens, pos).Semicolon? {
        pos := pos + 1;
      } else if Peek(tokens, pos).LCurly? {
        var block;
        result, block := ParseBlockOf(depth);
        command := command.(block := block);
      } else {
        // Recovery stops at ';' or '{' only.
        assert false;
      }
    }

    // From '{' on.
    method ParseBlockOf(depth: nat) returns (result: int, block: Block)
      requires Peek(tokens, pos).LCurly?
      modifies this
      ensures Agrees(old(valid), valid, result, ParseBlock(tokens, old(pos), depth), block, pos)
      ensures 0 <= result <= 1 && old(pos) < pos <= |tokens|
      decreases |tokens| - pos, 0
    {
      hide ParseCommands;
      block := NoBlock;
      pos := pos + 1;
      if depth + 1 > MAX_BLOCK_NESTING {
        valid := false;
        result := Recover(RCurly);
        if result > 0 { pos := pos + 1; }
        return;
      }
      var commands;
      result, commands := ParseCommandsOf(depth + 1);
      block := Block(commands);
      if result > 0 {
        if !Peek(tokens, pos).RCurly? {
          valid := false;
          result := Recover(RCurly);
        } else {
          pos := pos + 1;
        }
      } else {
        result := Recover(RCurly);
        if result > 0 { pos := pos + 1; }
      }
    }

    // sieve_parser_run: accepts exactly the token sequences of the trees within the limits.
    method Run() returns (ok: bool, commands: seq<Command>)
      requires pos == 0 && valid
      modifies this
      ensures ok == valid
      ensures ok <==> exists tree :: CommandsFit(tree, 1) && CommandsTokens(tree) == tokens
      ensures ok ==> CommandsFit(commands, 1) && CommandsTokens(commands) == tokens
    {
      hide ParseCommands, CommandsFit, CommandsTokens;
      AcceptedExactlyWhenSpelled(tokens);
      ScriptIsSpelled(tokens);
      var result;
      result, commands := ParseCommandsOf(1);
      if result > 0 && valid {
        if pos != |tokens| { valid := false; }
      } else {
        valid := false;
      }
      ok := valid;
    }
  }
}
