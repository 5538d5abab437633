/**
 Reading a MODE line: every letter takes an argument or not by its class, and becomes a
 change of a user's rank, of a list, or a plain flag that is written out again.

 `Decode` says what the changes of a line are; the loop is proved to collect them, and
 the flags it writes out are proved to read back as the same flags.
 */
module ModeLine {
  import opened Sequences
  import opened Wrappers

  /** The CHANMODES classes that a network announces. */
  datatype Classes = Classes(listModes: string, argModes: string, addArgModes: string)

  const PREFIX_MODES := "yYqaohv"
  const LIST_ACTIONS := "beI"

  /** One letter of a mode line with the argument it took. */
  datatype Change =
    | User(letter: char, adding: bool, nick: string)
    | List(letter: char, adding: bool, mask: string)
    | Flag(letter: char, adding: bool, arg: Option<string>)

  predicate IsSign(c: char) { c == '+' || c == '-' }

  function SignOf(adding: bool): char { if adding then '+' else '-' }

  /** Does this letter ask for an argument? */
  predicate Wants(cl: Classes, c: char, adding: bool) {
    c in PREFIX_MODES || c in cl.listModes || c in cl.argModes || (adding && c in cl.addArgModes)
  }

  /** What a letter means with the argument it got; without one it is a flag. */
  function Meaning(cl: Classes, c: char, adding: bool, arg: Option<string>): Change {
    if arg.None? then Flag(c, adding, None)
    else if c in PREFIX_MODES then User(c, adding, arg.value)
    else if c in cl.listModes && c in LIST_ACTIONS then List(c, adding, arg.value)
    else Flag(c, adding, arg)
  }

  function First(args: seq<string>): Option<string> {
    if args == [] then None else Some(args[0])
  }

  function Rest(args: seq<string>): seq<string> {
    if args == [] then [] else args[1..]
  }

  /** The changes of a mode string, in order. */
  function Decode(cl: Classes, modes: string, adding: bool, args: seq<string>): seq<Change> {
    if modes == "" then []
    else if IsSign(modes[0]) then Decode(cl, modes[1..], modes[0] == '+', args)
    else if Wants(cl, modes[0], adding) then
      [Meaning(cl, modes[0], adding, First(args))] + Decode(cl, modes[1..], adding, Rest(args))
    else [Flag(modes[0], adding, None)] + Decode(cl, modes[1..], adding, args)
  }

  function ArgOf(ch: Change): seq<string> {
    match ch
    case User(_, _, nick) => [nick]
    case List(_, _, mask) => [mask]
    case Flag(_, _, arg) => if arg.None? then [] else [arg.value]
  }

  function ArgsOf(chs: seq<Change>): seq<string> {
    if chs == [] then [] else ArgOf(chs[0]) + ArgsOf(chs[1..])
  }

  /** Letters that ask for an argument. */
  function Wanted(cl: Classes, modes: string, adding: bool): nat {
    if modes == "" then 0
    else if IsSign(modes[0]) then Wanted(cl, modes[1..], modes[0] == '+')
    else (if Wants(cl, modes[0], adding) then 1 else 0) + Wanted(cl, modes[1..], adding)
  }

  /** Every argument goes to exactly one letter, in order, until the letters or the arguments run out. */
  lemma {:induction false} ArgumentsConserved(cl: Classes, modes: string, adding: bool, args: seq<string>)
    ensures ArgsOf(Decode(cl, modes, adding, args)) == Leading(args, Wanted(cl, modes, adding))
    decreases |modes|
  {
    if modes != "" {
      var c, rest := modes[0], modes[1..];
      if IsSign(c) {
        ArgumentsConserved(cl, rest, c == '+', args);
      } else if Wants(cl, c, adding) {
        var x := Meaning(cl, c, adding, First(args));
        ArgumentsConserved(cl, rest, adding, Rest(args));
        ArgsFirst(x, Decode(cl, rest, adding, Rest(args)));
        LeadingFirst(args, Wanted(cl, rest, adding));
      } else {
        ArgumentsConserved(cl, rest, adding, args);
        ArgsFirst(Flag(c, adding, None), Decode(cl, rest, adding, args));
        assert [] + ArgsOf(Decode(cl, rest, adding, args)) == ArgsOf(Decode(cl, rest, adding, args));
      }
    }
  }

  /** The first `n` arguments, or all there are. */
  function Leading(args: seq<string>, n: nat): seq<string> {
    if n < |args| then args[..n] else args
  }

  lemma LeadingFirst(args: seq<string>, n: nat)
    ensures Leading(args, n + 1) == (if args == [] then [] else [args[0]]) + Leading(Rest(args), n)
  {
  }

  lemma ArgsFirst(x: Change, chs: seq<Change>)
    ensures ArgsOf([x] + chs) == ArgOf(x) + ArgsOf(chs)
  {
    assert ([x] + chs)[1..] == chs;
  }

  // ---------------------------------------------------------------- flags written out and read back

  function FlagsOf(chs: seq<Change>): seq<Change> {
    if chs == [] then [] else (if chs[0].Flag? then [chs[0]] else []) + FlagsOf(chs[1..])
  }

  /** A letter, with its sign in front when the sign changes. */
  function Letter(x: Change, sign: Option<bool>): string {
    (if sign == Some(x.adding) then "" else [SignOf(x.adding)]) + [x.letter]
  }

  function Letters(flags: seq<Change>, sign: Option<bool>): string {
    if flags == [] then "" else Letter(flags[0], sign) + Letters(flags[1..], Some(flags[0].adding))
  }

  lemma {:induction false} NothingToTake(cl: Classes, modes: string, adding: bool)
    ensures ArgsOf(FlagsOf(Decode(cl, modes, adding, []))) == []
    decreases |modes|
  {
    if modes != "" {
      NothingToTake(cl, modes[1..], if IsSign(modes[0]) then modes[0] == '+' else adding);
    }
  }

  lemma ReadLetter(cl: Classes, x: Change, sign: Option<bool>, adding: bool, rest: string, args: seq<string>)
    requires !IsSign(x.letter) && (sign.Some? ==> sign.value == adding)
    ensures Decode(cl, Letter(x, sign) + rest, adding, args) ==
      if Wants(cl, x.letter, x.adding)
      then [Meaning(cl, x.letter, x.adding, First(args))] + Decode(cl, rest, x.adding, Rest(args))
      else [Flag(x.letter, x.adding, None)] + Decode(cl, rest, x.adding, args)
  {
    var t := [x.letter] + rest;
    assert t[1..] == rest;
    if sign == Some(x.adding) {
      assert Letter(x, sign) + rest == t;
    } else {
      assert Letter(x, sign) + rest == [SignOf(x.adding)] + t;
      assert ([SignOf(x.adding)] + t)[1..] == t;
    }
  }

  /** The flags of a line, written out and read again, are the same flags and nothing else. */
  lemma {:induction false} FlagsReadBack(cl: Classes, modes: string, adding: bool, args: seq<string>,
                                         sign: Option<bool>, now: bool)
    requires sign.Some? ==> sign.value == now
    ensures var flags := FlagsOf(Decode(cl, modes, adding, args));
            Decode(cl, Letters(flags, sign), now, ArgsOf(flags)) == flags
    decreases |modes|, 0
  {
    if modes != "" {
      var c := modes[0];
      if IsSign(c) {
        FlagsReadBack(cl, modes[1..], c == '+', args, sign, now);
      } else {
        var x := if Wants(cl, c, adding) then Meaning(cl, c, adding, First(args)) else Flag(c, adding, None);
        var left := if Wants(cl, c, adding) then Rest(args) else args;
        var more := FlagsOf(Decode(cl, modes[1..], adding, left));
        assert Decode(cl, modes, adding, args) == [x] + Decode(cl, modes[1..], adding, left);
        assert ([x] + Decode(cl, modes[1..], adding, left))[1..] == Decode(cl, modes[1..], adding, left);
        if x.Flag? {
          FlagReadsBack(cl, x, modes[1..], adding, left, sign, now);
        } else {
          FlagsReadBack(cl, modes[1..], adding, left, sign, now);
          assert [] + more == more;
        }
      }
    }
  }

  /** One flag and those behind it. */
  lemma {:induction false} FlagReadsBack(cl: Classes, x: Change, modes: string, adding: bool, left: seq<string>,
                                         sign: Option<bool>, now: bool)
    requires x.Flag? && x.adding == adding && !IsSign(x.letter) && (sign.Some? ==> sign.value == now)
    requires if Wants(cl, x.letter, adding)
             then x == Meaning(cl, x.letter, adding, x.arg) && (x.arg.None? ==> left == [])
             else x.arg == None
    ensures var flags := [x] + FlagsOf(Decode(cl, modes, adding, left));
            Decode(cl, Letters(flags, sign), now, ArgsOf(flags)) == flags
    decreases |modes|, 1
  {
    var more := FlagsOf(Decode(cl, modes, adding, left));
    var flags := [x] + more;
    assert flags[1..] == more;
    FlagsReadBack(cl, modes, adding, left, Some(x.adding), x.adding);
    ReadLetter(cl, x, sign, now, Letters(more, Some(x.adding)), ArgsOf(flags));
    if x.arg.Some? {
      assert ArgsOf(flags) == [x.arg.value] + ArgsOf(more);
      assert ([x.arg.value] + ArgsOf(more))[1..] == ArgsOf(more);
    } else {
      assert ArgsOf(flags) == ArgsOf(more);
      if Wants(cl, x.letter, adding) {
        NothingToTake(cl, modes, adding);
      }
    }
  }

  // ---------------------------------------------------------------- flags as one string

  function Join(tokens: seq<string>): string
    requires tokens != []
  {
    if |tokens| == 1 then tokens[0] else tokens[0] + [' '] + Join(tokens[1..])
  }

  /** Splitting at single spaces; `cur` is the token read so far. */
  function Split(t: string, cur: string): (tokens: seq<string>)
    ensures tokens != []
    decreases |t|
  {
    if t == "" then [cur]
    else if t[0] == ' ' then [cur] + Split(t[1..], "")
    else Split(t[1..], cur + [t[0]])
  }

  predicate NoSpace(t: string) { ' ' !in t }

  predicate NoSpaces(tokens: seq<string>) {
    forall i :: 0 <= i < |tokens| ==> NoSpace(tokens[i])
  }

  lemma {:induction false} SplitHasNoSpaces(t: string, cur: string)
    requires NoSpace(cur)
    ensures NoSpaces(Split(t, cur))
    decreases |t|
  {
    if t != "" {
      if t[0] == ' ' {
        SplitHasNoSpaces(t[1..], "");
      } else {
        SplitHasNoSpaces(t[1..], cur + [t[0]]);
      }
    }
  }

  lemma {:induction false} SplitToken(token: string, rest: string, cur: string)
    requires NoSpace(token)
    ensures Split(token + rest, cur) == Split(rest, cur + token)
    decreases |token|
  {
    if token == "" {
      assert token + rest == rest && cur + token == cur;
    } else {
      assert (token + rest)[1..] == token[1..] + rest;
      assert cur + token == (cur + [token[0]]) + token[1..];
      SplitToken(token[1..], rest, cur + [token[0]]);
    }
  }

  lemma {:induction false} SplitJoined(tokens: seq<string>)
    requires tokens != [] && NoSpaces(tokens)
    ensures Split(Join(tokens), "") == tokens
  {
    var token := tokens[0];
    assert NoSpace(token) && "" + token == token;
    if |tokens| == 1 {
      SplitToken(token, "", "");
      assert token + "" == token;
    } else {
      var rest := [' '] + Join(tokens[1..]);
      assert rest[1..] == Join(tokens[1..]);
      assert token + [' '] + Join(tokens[1..]) == token + rest;
      SplitToken(token, rest, "");
      SplitJoined(tokens[1..]);
    }
  }

  /** The `flags` field: letters, then the arguments, separated by spaces. */
  function FlagText(flags: seq<Change>): string {
    if flags == [] then "" else Join([Letters(flags, None)] + ArgsOf(flags))
  }

  /** Neither a letter nor an argument of these flags contains a space. */
  predicate Spaceless(flags: seq<Change>) {
    forall i :: 0 <= i < |flags| ==>
      flags[i].letter != ' ' && NoSpaces(ArgOf(flags[i]))
  }

  lemma {:induction false} SpacelessPieces(flags: seq<Change>, sign: Option<bool>)
    requires Spaceless(flags)
    ensures NoSpace(Letters(flags, sign)) && NoSpaces(ArgsOf(flags))
  {
    if flags != [] {
      assert forall i :: 0 <= i < |flags[1..]| ==> flags[1..][i] == flags[i + 1];
      SpacelessPieces(flags[1..], Some(flags[0].adding));
    }
  }

  /** Whatever is decoded from tokens without spaces has none. */
  lemma {:induction false} DecodedSpaceless(cl: Classes, modes: string, adding: bool, args: seq<string>)
    requires NoSpace(modes) && NoSpaces(args)
    ensures Spaceless(Decode(cl, modes, adding, args))
    decreases |modes|
  {
    if modes != "" {
      assert forall c :: c in modes[1..] ==> c in modes;
      assert modes[0] in modes;
      var now := if IsSign(modes[0]) then modes[0] == '+' else adding;
      var takes := !IsSign(modes[0]) && Wants(cl, modes[0], adding);
      DecodedSpaceless(cl, modes[1..], now, if takes then Rest(args) else args);
    }
  }

  /** The written flags, split at spaces and read again, are the same flags if and only if none contains a space. */
  lemma FlagTextReadsBack(cl: Classes, modes: string, args: seq<string>)
    ensures var flags := FlagsOf(Decode(cl, modes, true, args));
            var tokens := Split(FlagText(flags), "");
            Decode(cl, tokens[0], true, tokens[1..]) == flags <==> Spaceless(flags)
  {
    var flags := FlagsOf(Decode(cl, modes, true, args));
    var tokens := Split(FlagText(flags), "");
    SplitHasNoSpaces(FlagText(flags), "");
    DecodedSpaceless(cl, tokens[0], true, tokens[1..]);
    if flags == [] {
      assert tokens == [""] && Decode(cl, "", true, []) == [];
    } else if Spaceless(flags) {
      SpacelessPieces(flags, None);
      SplitJoined([Letters(flags, None)] + ArgsOf(flags));
      assert tokens[1..] == ArgsOf(flags);
      FlagsReadBack(cl, modes, true, args, None, true);
    }
  }

  /** A channel key with a space in it: what is read back is another key. */
  lemma SpacedKeyIsCut()
    ensures var cl, key := Classes("beI", "k", "l"), "a b";
      var flags := FlagsOf(Decode(cl, "+k", true, [key]));
      var tokens := Split(FlagText(flags), "");
      flags == [Flag('k', true, Some(key))]
      && Decode(cl, tokens[0], true, tokens[1..]) == [Flag('k', true, Some("a"))]
  {
    var cl, key := Classes("beI", "k", "l"), "a b";
    var flag := Flag('k', true, Some(key));
    OneFlag(cl, key, []);
    assert FlagsOf([flag]) == [flag] by {
      assert [flag][1..] == [];
    }
    assert [flag][1..] == [] && Letters([flag], None) == (['+'] + ['k']) + "" == "+k";
    assert ArgsOf([flag]) == [key] + [] == [key];
    assert FlagText([flag]) == Join(["+k"] + [key]);
    TwoTokens("+k", key);
    SplitSpaced();
    OneFlag(cl, "a", ["b"]);
  }

  lemma OneFlag(cl: Classes, arg: string, more: seq<string>)
    requires cl == Classes("beI", "k", "l")
    ensures Decode(cl, "+k", true, [arg] + more) == [Flag('k', true, Some(arg))]
  {
    assert "+k"[1..] == "k" && "k"[1..] == "";
    assert ([arg] + more)[1..] == more && Decode(cl, "", true, more) == [];
    assert Decode(cl, "k", true, [arg] + more) == [Flag('k', true, Some(arg))] + Decode(cl, "", true, more);
  }

  lemma TwoTokens(a: string, b: string)
    ensures Join([a] + [b]) == a + [' '] + b
  {
    assert ([a] + [b])[1..] == [b];
  }

  lemma SplitSpaced()
    ensures Split("+k" + [' '] + "a b", "") == ["+k"] + (["a"] + ["b"])
  {
    SpaceSplits("+k", "a b");
    assert "+k" + [' '] + "a b" == "+k" + ([' '] + "a b");
    SpaceSplits("a", "b");
    assert "a b" == "a" + ([' '] + "b");
    SplitToken("b", "", "");
    assert "b" + "" == "b" && "" + "b" == "b";
  }

  lemma SpaceSplits(token: string, rest: string)
    requires NoSpace(token)
    ensures Split(token + ([' '] + rest), "") == [token] + Split(rest, "")
  {
    SplitToken(token, [' '] + rest, "");
    assert "" + token == token && ([' '] + rest)[1..] == rest;
  }

  // ---------------------------------------------------------------- ranks

  /** What a line amounts to for one user and one letter; opposite signs cancel. */
  datatype Net = Neither | Added | Removed

  function After(net: Net, adding: bool): Net {
    if adding then (if net == Removed then Neither else Added)
    else if net == Added then Neither else Removed
  }

  function NetOf(chs: seq<Change>, fold: string -> string, key: string, letter: char): Net {
    if chs == [] then Neither
    else
      var init, x := chs[..|chs| - 1], chs[|chs| - 1];
      var before := NetOf(init, fold, key, letter);
      if x.User? && fold(x.nick) == key && x.letter == letter then After(before, x.adding) else before
  }

  /** A user of the line, under the folded nick. */
  datatype Entry = Entry(nick: string, added: set<char>, removed: set<char>)

  function Apply(e: Entry, letter: char, adding: bool): Entry {
    if adding then
      if letter in e.removed then e.(removed := e.removed - {letter}) else e.(added := e.added + {letter})
    else
      if letter in e.added then e.(added := e.added - {letter}) else e.(removed := e.removed + {letter})
  }

  /** The table of users holds exactly the net changes. */
  ghost predicate Tallies(users: map<string, Entry>, chs: seq<Change>, fold: string -> string) {
    && (forall key, letter :: key in users ==>
          && (letter in users[key].added <==> NetOf(chs, fold, key, letter) == Added)
          && (letter in users[key].removed <==> NetOf(chs, fold, key, letter) == Removed))
    && (forall key, letter :: key !in users ==> NetOf(chs, fold, key, letter) == Neither)
    && (forall key :: key in users ==> fold(users[key].nick) == key)
  }

  lemma TallyOne(users: map<string, Entry>, chs: seq<Change>, fold: string -> string, x: Change)
    requires Tallies(users, chs, fold)
    ensures Tallies(if x.User? then Counted(users, fold, x) else users, chs + [x], fold)
  {
    assert (chs + [x])[..|chs|] == chs;
    forall key, letter
      ensures NetOf(chs + [x], fold, key, letter) ==
        var before := NetOf(chs, fold, key, letter);
        if x.User? && fold(x.nick) == key && x.letter == letter then After(before, x.adding) else before
    {
    }
  }

  function Counted(users: map<string, Entry>, fold: string -> string, x: Change): map<string, Entry>
    requires x.User?
  {
    var key := fold(x.nick);
    users[key := Apply(if key in users then users[key] else Entry(x.nick, {}, {}), x.letter, x.adding)]
  }

  /** The folded nicks of a line, in the order in which they first come up. */
  function KeysOf(chs: seq<Change>, fold: string -> string): seq<string> {
    if chs == [] then []
    else
      var keys, x := KeysOf(chs[..|chs| - 1], fold), chs[|chs| - 1];
      if x.User? && fold(x.nick) !in keys then keys + [fold(x.nick)] else keys
  }

  /** Something is left to say about this user. */
  ghost predicate Says(chs: seq<Change>, fold: string -> string, key: string) {
    exists letter :: NetOf(chs, fold, key, letter) != Neither
  }

  /** Those of `keys` with something left to say, in order. */
  ghost function Saying(keys: seq<string>, chs: seq<Change>, fold: string -> string): seq<string> {
    if keys == [] then []
    else
      var key := keys[|keys| - 1];
      Saying(keys[..|keys| - 1], chs, fold) + if Says(chs, fold, key) then [key] else []
  }

  /** The users of a line, in the order in which their names first came up. */
  datatype Users = Users(order: seq<string>, entries: map<string, Entry>)

  ghost predicate UsersFit(us: Users, chs: seq<Change>, fold: string -> string) {
    && Tallies(us.entries, chs, fold)
    && us.order == KeysOf(chs, fold)
    && (forall i, j :: 0 <= i < j < |us.order| ==> us.order[i] != us.order[j])
    && (forall key :: key in us.entries <==> key in us.order)
  }

  /** A user with something left to say. */
  datatype UserChange = UserChange(key: string, nick: string, added: set<char>, removed: set<char>)

  datatype Parsed = Parsed(isChannel: bool, users: seq<UserChange>, lists: seq<Change>, flags: string)

  function ListsOf(chs: seq<Change>): seq<Change> {
    if chs == [] then [] else (if chs[0].List? then [chs[0]] else []) + ListsOf(chs[1..])
  }

  function Keys(users: seq<UserChange>): (keys: seq<string>)
    ensures |keys| == |users|
  {
    if users == [] then [] else Keys(users[..|users| - 1]) + [users[|users| - 1].key]
  }

  /**
   `users` names each user with a net change once, in the order in which they first come
   up, and each with exactly the net change.
   */
  ghost predicate NetChanges(users: seq<UserChange>, chs: seq<Change>, fold: string -> string) {
    && Keys(users) == Saying(KeysOf(chs, fold), chs, fold)
    && (forall i, j :: 0 <= i < j < |users| ==> users[i].key != users[j].key)
    && (forall i, letter :: 0 <= i < |users| ==>
          && (letter in users[i].added <==> NetOf(chs, fold, users[i].key, letter) == Added)
          && (letter in users[i].removed <==> NetOf(chs, fold, users[i].key, letter) == Removed))
    && (forall key, letter :: NetOf(chs, fold, key, letter) != Neither ==>
          exists i :: 0 <= i < |users| && users[i].key == key)
    && (forall i :: 0 <= i < |users| ==>
          fold(users[i].nick) == users[i].key && (users[i].added != {} || users[i].removed != {}))
  }

  predicate IsChannel(target: string) {
    target != "" && target[0] in "#&!+"
  }

  lemma {:induction false} FlagsGrow(chs: seq<Change>, x: Change)
    ensures FlagsOf(chs + [x]) == FlagsOf(chs) + if x.Flag? then [x] else []
  {
    if chs == [] {
      assert [] + [x] == [x] && [x][1..] == [];
    } else {
      assert (chs + [x])[1..] == chs[1..] + [x];
      FlagsGrow(chs[1..], x);
      Assoc(if chs[0].Flag? then [chs[0]] else [], FlagsOf(chs[1..]), if x.Flag? then [x] else []);
    }
  }

  lemma {:induction false} ListsGrow(chs: seq<Change>, x: Change)
    ensures ListsOf(chs + [x]) == ListsOf(chs) + if x.List? then [x] else []
  {
    if chs == [] {
      assert [] + [x] == [x] && [x][1..] == [];
    } else {
      assert (chs + [x])[1..] == chs[1..] + [x];
      ListsGrow(chs[1..], x);
      Assoc(if chs[0].List? then [chs[0]] else [], ListsOf(chs[1..]), if x.List? then [x] else []);
    }
  }

  function LastSign(flags: seq<Change>, sign: Option<bool>): Option<bool> {
    if flags == [] then sign else Some(flags[|flags| - 1].adding)
  }

  lemma {:induction false} LettersGrow(flags: seq<Change>, sign: Option<bool>, x: Change)
    ensures Letters(flags + [x], sign) == Letters(flags, sign) + Letter(x, LastSign(flags, sign))
  {
    if flags == [] {
      assert [] + [x] == [x] && [x][1..] == [];
      assert Letter(x, sign) + "" == Letter(x, sign) == "" + Letter(x, sign);
    } else {
      var after := Some(flags[0].adding);
      assert (flags + [x])[1..] == flags[1..] + [x];
      LettersGrow(flags[1..], after, x);
      Assoc(Letter(flags[0], sign), Letters(flags[1..], after), Letter(x, LastSign(flags[1..], after)));
    }
  }

  lemma {:induction false} ArgsGrow(flags: seq<Change>, x: Change)
    ensures ArgsOf(flags + [x]) == ArgsOf(flags) + ArgOf(x)
  {
    if flags == [] {
      assert [] + [x] == [x] && [x][1..] == [];
      assert ArgOf(x) + [] == ArgOf(x) == [] + ArgOf(x);
    } else {
      assert (flags + [x])[1..] == flags[1..] + [x];
      ArgsGrow(flags[1..], x);
      Assoc(ArgOf(flags[0]), ArgsOf(flags[1..]), ArgOf(x));
    }
  }

  /** The loop's collections. */
  datatype Collected = Collected(
    users: Users, lists: seq<Change>, letters: string, sign: Option<bool>, args: seq<string>)

  ghost predicate Collects(c: Collected, chs: seq<Change>, fold: string -> string) {
    && UsersFit(c.users, chs, fold)
    && c.lists == ListsOf(chs)
    && c.letters == Letters(FlagsOf(chs), None) && c.sign == LastSign(FlagsOf(chs), None)
    && c.args == ArgsOf(FlagsOf(chs))
  }

  /** One change is filed: `pushFlag`, a list entry, or the user's entry. */
  method File(c: Collected, x: Change, fold: string -> string, ghost chs: seq<Change>) returns (c': Collected)
    requires Collects(c, chs, fold)
    ensures Collects(c', chs + [x], fold)
  {
    FlagsGrow(chs, x);
    ListsGrow(chs, x);
    assert FlagsOf(chs) + [] == FlagsOf(chs) && ListsOf(chs) + [] == ListsOf(chs);
    var us := CountUser(c.users, x, fold, chs);
    match x
    case Flag(letter, adding, arg) =>
      LettersGrow(FlagsOf(chs), None, x);
      ArgsGrow(FlagsOf(chs), x);
      c' := Collected(us, c.lists, c.letters + Letter(x, c.sign), Some(adding), c.args + ArgOf(x));
    case List(_, _, _) =>
      c' := c.(users := us, lists := c.lists + [x]);
    case User(_, _, _) =>
      c' := c.(users := us);
  }

  /** The user's entry is made or updated; other changes leave the users alone. */
  method CountUser(us: Users, x: Change, fold: string -> string, ghost chs: seq<Change>) returns (us': Users)
    requires UsersFit(us, chs, fold)
    ensures UsersFit(us', chs + [x], fold)
  {
    TallyOne(us.entries, chs, fold, x);
    KeysOneMore(chs, x, fold);
    us' := us;
    if x.User? {
      us' := Counting(us, x, fold);
    }
  }

  lemma KeysOneMore(chs: seq<Change>, x: Change, fold: string -> string)
    ensures KeysOf(chs + [x], fold)
         == KeysOf(chs, fold) + if x.User? && fold(x.nick) !in KeysOf(chs, fold) then [fold(x.nick)] else []
  {
    assert (chs + [x])[..|chs|] == chs;
    assert KeysOf(chs, fold) + [] == KeysOf(chs, fold);
  }

  method Counting(us: Users, x: Change, fold: string -> string) returns (us': Users)
    requires x.User?
    requires forall i, j :: 0 <= i < j < |us.order| ==> us.order[i] != us.order[j]
    requires forall key :: key in us.entries <==> key in us.order
    ensures us'.entries == Counted(us.entries, fold, x)
    ensures us'.order == us.order + if fold(x.nick) in us.order then [] else [fold(x.nick)]
    ensures forall i, j :: 0 <= i < j < |us'.order| ==> us'.order[i] != us'.order[j]
    ensures forall key :: key in us'.entries <==> key in us'.order
  {
    var key := fold(x.nick);
    var order := us.order;
    if key !in us.entries {
      order := order + [key];
    }
    us' := Users(order, Counted(us.entries, fold, x));
    assert us.order + [] == us.order;
  }

  /** `parseModeLine`. */
  method ParseModeLine(cl: Classes, fold: string -> string, params: seq<string>) returns (p: Parsed)
    ensures |params| < 2 ==> p == Parsed(false, [], [], "")
    ensures |params| >= 2 ==>
      var chs := Decode(cl, params[1], true, params[2..]);
      && p.isChannel == IsChannel(params[0])
      && NetChanges(p.users, chs, fold)
      && p.lists == ListsOf(chs)
      && p.flags == FlagText(FlagsOf(chs))
  {
    if |params| < 2 {
      return Parsed(false, [], [], "");
    }
    var modeStr, args := params[1], params[2..];
    var argIdx, adding := 0, true;
    var c := Collected(Users([], map[]), [], "", None, []);
    ghost var done: seq<Change> := [];
    assert modeStr[0..] == modeStr && args[0..] == args;
    for i := 0 to |modeStr|
      invariant argIdx <= |args| && Collects(c, done, fold)
      invariant done + Decode(cl, modeStr[i..], adding, args[argIdx..]) == Decode(cl, modeStr, true, args)
    {
      var ch := modeStr[i];
      assert modeStr[i..][1..] == modeStr[i + 1..];
      if IsSign(ch) {
        adding := ch == '+';
      } else {
        var arg: Option<string> := None;
        ghost var from := argIdx;
        if Wants(cl, ch, adding) && argIdx < |args| {
          arg := Some(args[argIdx]);
          argIdx := argIdx + 1;
        }
        var x := Meaning(cl, ch, adding, arg);
        NextChange(cl, modeStr, i, adding, args, from, done);
        c := File(c, x, fold, done);
        done := done + [x];
      }
    }
    assert done + [] == done;
    var users := WithNetChange(c.users, done, fold);
    p := Parsed(IsChannel(params[0]), users, c.lists, if c.letters == "" then "" else Join([c.letters] + c.args));
  }

  lemma NextChange(cl: Classes, modes: string, i: nat, adding: bool, args: seq<string>, from: nat, done: seq<Change>)
    requires i < |modes| && from <= |args| && !IsSign(modes[i])
    ensures var takes := Wants(cl, modes[i], adding) && from < |args|;
            var x := Meaning(cl, modes[i], adding, if takes then Some(args[from]) else None);
            done + Decode(cl, modes[i..], adding, args[from..])
            == (done + [x]) + Decode(cl, modes[i + 1..], adding, args[if takes then from + 1 else from..])
  {
    assert modes[i..][1..] == modes[i + 1..];
    var takes := Wants(cl, modes[i], adding) && from < |args|;
    if takes {
      assert args[from..][1..] == args[from + 1..];
    } else if from == |args| {
      assert args[from..] == [] == Rest(args[from..]);
    }
    var x := Meaning(cl, modes[i], adding, if takes then Some(args[from]) else None);
    var more := Decode(cl, modes[i + 1..], adding, args[if takes then from + 1 else from..]);
    assert Decode(cl, modes[i..], adding, args[from..]) == [x] + more;
    assert done + ([x] + more) == (done + [x]) + more;
  }

  /** The first `n` users, those without a net change left out. */
  function Listed(us: Users, n: nat): seq<UserChange>
    requires n <= |us.order| && forall k :: 0 <= k < n ==> us.order[k] in us.entries
  {
    if n == 0 then [] else Listed(us, n - 1) + ListedOne(us.order[n - 1], us.entries[us.order[n - 1]])
  }

  function ListedOne(key: string, e: Entry): seq<UserChange> {
    if e.added == {} && e.removed == {} then [] else [UserChange(key, e.nick, e.added, e.removed)]
  }

  /** Every listed user is one of the first `n`; every other one of these has nothing to say. */
  lemma {:induction false} ListedFits(us: Users, n: nat)
    requires n <= |us.order| && forall k :: 0 <= k < n ==> us.order[k] in us.entries
    requires forall i, j :: 0 <= i < j < |us.order| ==> us.order[i] != us.order[j]
    ensures forall u :: u in Listed(us, n) ==>
      u.key in us.order[..n] && u.key in us.entries && ListedOne(u.key, us.entries[u.key]) == [u]
    ensures forall i, j :: 0 <= i < j < |Listed(us, n)| ==> Listed(us, n)[i].key != Listed(us, n)[j].key
    ensures forall k :: 0 <= k < n ==>
      us.entries[us.order[k]].added == {} == us.entries[us.order[k]].removed
      || exists u :: u in Listed(us, n) && u.key == us.order[k]
  {
    if n > 0 {
      var before, key := Listed(us, n - 1), us.order[n - 1];
      var one := ListedOne(key, us.entries[key]);
      ListedFits(us, n - 1);
      assert us.order[..n] == us.order[..n - 1] + [key];
      forall i | 0 <= i < |before|
        ensures before[i].key != key
      {
        assert before[i] in before;
      }
      forall k | 0 <= k < n
        ensures us.entries[us.order[k]].added == {} == us.entries[us.order[k]].removed
                || exists u :: u in before + one && u.key == us.order[k]
      {
        if k == n - 1 {
          assert one != [] ==> one[0] in before + one;
        }
      }
    }
  }

  /** Users whose changes cancelled out are left out. */
  method WithNetChange(us: Users, ghost chs: seq<Change>, fold: string -> string) returns (users: seq<UserChange>)
    requires UsersFit(us, chs, fold)
    ensures NetChanges(users, chs, fold)
  {
    users := [];
    for i := 0 to |us.order|
      invariant users == Listed(us, i)
    {
      var key := us.order[i];
      var e := us.entries[key];
      if e.added != {} || e.removed != {} {
        users := users + [UserChange(key, e.nick, e.added, e.removed)];
      }
    }
    ListedNetChanges(us, chs, fold);
  }

  lemma {:induction false} ListedKeys(us: Users, n: nat, chs: seq<Change>, fold: string -> string)
    requires n <= |us.order| && forall k :: 0 <= k < n ==> us.order[k] in us.entries
    requires forall k :: 0 <= k < n ==>
      (ListedOne(us.order[k], us.entries[us.order[k]]) == [] <==> !Says(chs, fold, us.order[k]))
    ensures Keys(Listed(us, n)) == Saying(us.order[..n], chs, fold)
  {
    if n > 0 {
      var key := us.order[n - 1];
      ListedKeys(us, n - 1, chs, fold);
      assert us.order[..n][..n - 1] == us.order[..n - 1] && us.order[..n][n - 1] == key;
      KeysGrow(Listed(us, n - 1), ListedOne(key, us.entries[key]));
    }
  }

  lemma SaysIsListed(us: Users, key: string, chs: seq<Change>, fold: string -> string)
    requires Tallies(us.entries, chs, fold) && key in us.entries
    ensures ListedOne(key, us.entries[key]) == [] <==> !Says(chs, fold, key)
  {
    var e := us.entries[key];
    if letter :| letter in e.added || letter in e.removed {
      assert NetOf(chs, fold, key, letter) != Neither;
    } else {
      assert e.added == {} && e.removed == {};
      assert forall letter :: letter !in e.added && letter !in e.removed ==> NetOf(chs, fold, key, letter) == Neither;
    }
  }

  lemma KeysGrow(before: seq<UserChange>, one: seq<UserChange>)
    requires |one| <= 1
    ensures Keys(before + one) == Keys(before) + if one == [] then [] else [one[0].key]
  {
    if one == [] {
      assert before + one == before;
    } else {
      assert (before + one)[..|before|] == before;
    }
  }

  lemma ListedNetChanges(us: Users, chs: seq<Change>, fold: string -> string)
    requires UsersFit(us, chs, fold)
    ensures NetChanges(Listed(us, |us.order|), chs, fold)
  {
    ListedFits(us, |us.order|);
    ListedInOrder(us, chs, fold);
    ListedEntries(us, Listed(us, |us.order|), chs, fold);
    ListedAll(us, Listed(us, |us.order|), chs, fold);
  }

  lemma ListedInOrder(us: Users, chs: seq<Change>, fold: string -> string)
    requires Tallies(us.entries, chs, fold) && forall k :: 0 <= k < |us.order| ==> us.order[k] in us.entries
    ensures Keys(Listed(us, |us.order|)) == Saying(us.order, chs, fold)
  {
    forall k | 0 <= k < |us.order|
      ensures ListedOne(us.order[k], us.entries[us.order[k]]) == [] <==> !Says(chs, fold, us.order[k])
    {
      SaysIsListed(us, us.order[k], chs, fold);
    }
    ListedKeys(us, |us.order|, chs, fold);
    assert us.order[..|us.order|] == us.order;
  }

  lemma ListedEntries(us: Users, users: seq<UserChange>, chs: seq<Change>, fold: string -> string)
    requires Tallies(us.entries, chs, fold)
    requires forall u :: u in users ==> u.key in us.entries && ListedOne(u.key, us.entries[u.key]) == [u]
    ensures forall i, letter :: 0 <= i < |users| ==>
      && (letter in users[i].added <==> NetOf(chs, fold, users[i].key, letter) == Added)
      && (letter in users[i].removed <==> NetOf(chs, fold, users[i].key, letter) == Removed)
    ensures forall i :: 0 <= i < |users| ==>
      fold(users[i].nick) == users[i].key && (users[i].added != {} || users[i].removed != {})
  {
    forall i | 0 <= i < |users|
      ensures users[i].key in us.entries && ListedOne(users[i].key, us.entries[users[i].key]) == [users[i]]
    {
      assert users[i] in users;
    }
  }

  lemma ListedAll(us: Users, users: seq<UserChange>, chs: seq<Change>, fold: string -> string)
    requires Tallies(us.entries, chs, fold) && forall key :: key in us.entries <==> key in us.order
    requires forall k :: 0 <= k < |us.order| ==>
      us.order[k] in us.entries
      && (us.entries[us.order[k]].added == {} == us.entries[us.order[k]].removed
          || exists u :: u in users && u.key == us.order[k])
    ensures forall key, letter :: NetOf(chs, fold, key, letter) != Neither ==>
      exists i :: 0 <= i < |users| && users[i].key == key
  {
    forall key, letter | NetOf(chs, fold, key, letter) != Neither
      ensures exists i :: 0 <= i < |users| && users[i].key == key
    {
      var k :| 0 <= k < |us.order| && us.order[k] == key;
      assert letter in us.entries[key].added || letter in us.entries[key].removed;
      var u :| u in users && u.key == key;
    }
  }
}
