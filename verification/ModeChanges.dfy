/**
 What the letters of a mode line mean, said by their positions, and what the changes of
 one user's letter amount to, said by how their signs alternate.
 */
module ModeChanges {
  import opened Sequences
  import opened Wrappers
  import opened ModeLine

  // ---------------------------------------------------------------- position by position

  /** The sign in force at position `i`: the last one before it, plus at the start. */
  predicate AddingAt(modes: string, i: nat)
    requires i <= |modes|
  {
    i == 0 || modes[i - 1] == '+' || (modes[i - 1] != '-' && AddingAt(modes, i - 1))
  }

  /** The letter at position `i` asks for an argument: a rank, a list, a key, or a limit that is set. */
  predicate AsksAt(cl: Classes, modes: string, i: nat)
    requires i < |modes|
  {
    var c := modes[i];
    c != '+' && c != '-' &&
    (c in "yYqaohv" || c in cl.listModes || c in cl.argModes || (c in cl.addArgModes && AddingAt(modes, i)))
  }

  /** Letters in front of position `i`, and those of them that ask for an argument. */
  function LettersBefore(modes: string, i: nat): nat
    requires i <= |modes|
  {
    if i == 0 then 0
    else LettersBefore(modes, i - 1) + if modes[i - 1] == '+' || modes[i - 1] == '-' then 0 else 1
  }

  function AskedBefore(cl: Classes, modes: string, i: nat): nat
    requires i <= |modes|
  {
    if i == 0 then 0 else AskedBefore(cl, modes, i - 1) + if AsksAt(cl, modes, i - 1) then 1 else 0
  }

  function From(args: seq<string>, n: nat): seq<string> {
    if n < |args| then args[n..] else []
  }

  /** The change that a letter makes with what is left of the arguments. */
  function ChangeOf(cl: Classes, c: char, adding: bool, asks: bool, left: seq<string>): Change {
    if !asks || left == [] then Flag(c, adding, None)
    else if c in "yYqaohv" then User(c, adding, left[0])
    else if c in cl.listModes && c in "beI" then List(c, adding, left[0])
    else Flag(c, adding, Some(left[0]))
  }

  lemma DecodeLetter(cl: Classes, modes: string, i: nat, left: seq<string>)
    requires i < |modes| && modes[i] != '+' && modes[i] != '-'
    ensures var asks, adding := AsksAt(cl, modes, i), AddingAt(modes, i);
            Decode(cl, modes[i..], adding, left)
            == [ChangeOf(cl, modes[i], adding, asks, left)]
             + Decode(cl, modes[i + 1..], AddingAt(modes, i + 1), if asks then From(left, 1) else left)
  {
    assert modes[i..][1..] == modes[i + 1..] && Rest(left) == From(left, 1);
  }

  lemma DecodeSign(cl: Classes, modes: string, i: nat, left: seq<string>)
    requires i < |modes| && (modes[i] == '+' || modes[i] == '-')
    ensures Decode(cl, modes[i..], AddingAt(modes, i), left) == Decode(cl, modes[i + 1..], AddingAt(modes, i + 1), left)
  {
    assert modes[i..][1..] == modes[i + 1..];
  }

  lemma DropFirst<T>(s: seq<T>, k: nat, x: T, rest: seq<T>)
    requires k <= |s| && s[k..] == [x] + rest
    ensures k < |s| && s[k] == x && s[k + 1..] == rest
  {
    assert |s[k..]| > 0;
    assert s[k..][0] == x && s[k..][1..] == rest;
  }

  lemma FromTwice(args: seq<string>, n: nat)
    ensures From(From(args, n), 1) == From(args, n + 1)
  {
  }

  /** What is decoded behind the first `i` characters. */
  lemma {:induction false} DecodedFrom(cl: Classes, modes: string, args: seq<string>, i: nat)
    requires i <= |modes|
    ensures var chs, k := Decode(cl, modes, true, args), LettersBefore(modes, i);
            k <= |chs| && chs[k..] == Decode(cl, modes[i..], AddingAt(modes, i), From(args, AskedBefore(cl, modes, i)))
  {
    if i == 0 {
      assert modes[0..] == modes && From(args, 0) == args;
    } else {
      DecodedFrom(cl, modes, args, i - 1);
      if modes[i - 1] == '+' || modes[i - 1] == '-' {
        DecodeSign(cl, modes, i - 1, From(args, AskedBefore(cl, modes, i - 1)));
      } else {
        DecodedOneMore(cl, modes, args, i - 1);
      }
    }
  }

  lemma DecodedOneMore(cl: Classes, modes: string, args: seq<string>, i: nat)
    requires i < |modes| && modes[i] != '+' && modes[i] != '-'
    requires LettersBefore(modes, i) <= |Decode(cl, modes, true, args)|
    requires Decode(cl, modes, true, args)[LettersBefore(modes, i)..]
          == Decode(cl, modes[i..], AddingAt(modes, i), From(args, AskedBefore(cl, modes, i)))
    ensures var chs, k := Decode(cl, modes, true, args), LettersBefore(modes, i);
            && k < |chs|
            && chs[k] == ChangeOf(cl, modes[i], AddingAt(modes, i), AsksAt(cl, modes, i),
                                  From(args, AskedBefore(cl, modes, i)))
            && chs[k + 1..]
               == Decode(cl, modes[i + 1..], AddingAt(modes, i + 1), From(args, AskedBefore(cl, modes, i + 1)))
  {
    var left := From(args, AskedBefore(cl, modes, i));
    var asks, adding := AsksAt(cl, modes, i), AddingAt(modes, i);
    DecodeLetter(cl, modes, i, left);
    FromTwice(args, AskedBefore(cl, modes, i));
    DropFirst(Decode(cl, modes, true, args), LettersBefore(modes, i), ChangeOf(cl, modes[i], adding, asks, left),
      Decode(cl, modes[i + 1..], AddingAt(modes, i + 1), if asks then From(left, 1) else left));
  }

  /**
   Every letter makes one change under the sign in force. It takes the next argument if
   its class asks for one: a rank's is a nick, a ban, exception or invite's a mask, and
   any other one goes with the flag.
   */
  lemma ChangeAt(cl: Classes, modes: string, args: seq<string>, i: nat)
    requires i < |modes| && modes[i] != '+' && modes[i] != '-'
    ensures var chs, k, n := Decode(cl, modes, true, args), LettersBefore(modes, i), AskedBefore(cl, modes, i);
            var c, adding := modes[i], AddingAt(modes, i);
            && k < |chs|
            && chs[k] == if !AsksAt(cl, modes, i) || n >= |args| then Flag(c, adding, None)
                         else if c in "yYqaohv" then User(c, adding, args[n])
                         else if c in cl.listModes && c in "beI" then List(c, adding, args[n])
                         else Flag(c, adding, Some(args[n]))
  {
    DecodedFrom(cl, modes, args, i);
    DecodedOneMore(cl, modes, args, i);
  }

  // ---------------------------------------------------------------- how signs cancel

  /** The signs of the changes of one user's letter, in order. */
  function Signs(chs: seq<Change>, fold: string -> string, key: string, letter: char): seq<bool> {
    if chs == [] then []
    else
      var x := chs[|chs| - 1];
      Signs(chs[..|chs| - 1], fold, key, letter)
      + if x.User? && fold(x.nick) == key && x.letter == letter then [x.adding] else []
  }

  /** How far back from the end the signs alternate. */
  function Alternating(signs: seq<bool>): nat {
    if |signs| <= 1 then |signs|
    else if signs[|signs| - 1] == signs[|signs| - 2] then 1
    else 1 + Alternating(signs[..|signs| - 1])
  }

  /** Opposite signs cancel: what is left is the last sign, if the alternating run at the end is of odd length. */
  function Outcome(signs: seq<bool>): Net {
    if signs == [] || Alternating(signs) % 2 == 0 then Neither else if signs[|signs| - 1] then Added else Removed
  }

  lemma OneMoreSign(signs: seq<bool>, sign: bool)
    ensures Outcome(signs + [sign]) == After(Outcome(signs), sign)
  {
    assert (signs + [sign])[..|signs|] == signs;
  }

  /** A user's letter comes out of a line as its signs say. */
  lemma {:induction false} NetAlternates(chs: seq<Change>, fold: string -> string, key: string, letter: char)
    ensures NetOf(chs, fold, key, letter) == Outcome(Signs(chs, fold, key, letter))
  {
    if chs != [] {
      var init, x := chs[..|chs| - 1], chs[|chs| - 1];
      NetAlternates(init, fold, key, letter);
      var signs := Signs(init, fold, key, letter);
      OneMoreSign(signs, x.User? && x.adding);
      assert signs + [] == signs;
    }
  }

  // ---------------------------------------------------------------- in which order users come

  /** The position of the first change of a user. */
  function FirstUse(chs: seq<Change>, fold: string -> string, key: string): nat {
    if chs == [] then 0
    else
      var n := FirstUse(chs[..|chs| - 1], fold, key);
      var x := chs[|chs| - 1];
      if n < |chs| - 1 then n else if x.User? && fold(x.nick) == key then |chs| - 1 else |chs|
  }

  /** A user is named in the line: then some change is the first. */
  lemma {:induction false} FirstUseIsFirst(chs: seq<Change>, fold: string -> string, key: string)
    ensures var n := FirstUse(chs, fold, key);
            && n <= |chs| && (forall i :: 0 <= i < n ==> !(chs[i].User? && fold(chs[i].nick) == key))
            && (n < |chs| ==> chs[n].User? && fold(chs[n].nick) == key)
  {
    if chs != [] {
      FirstUseIsFirst(chs[..|chs| - 1], fold, key);
    }
  }

  /** Every user of the line once, by the position of its first change. */
  lemma {:induction false} KeysByFirstUse(chs: seq<Change>, fold: string -> string)
    ensures var keys := KeysOf(chs, fold);
            && (forall key :: key in keys <==> FirstUse(chs, fold, key) < |chs|)
            && forall i, j :: 0 <= i < j < |keys| ==> FirstUse(chs, fold, keys[i]) < FirstUse(chs, fold, keys[j])
  {
    if chs != [] {
      var init := chs[..|chs| - 1];
      KeysByFirstUse(init, fold);
      forall key
        ensures FirstUse(init, fold, key) <= |init|
      {
        FirstUseIsFirst(init, fold, key);
      }
      assert forall i :: 0 <= i < |KeysOf(init, fold)| ==> KeysOf(init, fold)[i] in KeysOf(init, fold);
    }
  }
}
