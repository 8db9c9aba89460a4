/**
 Joining an argument list into a Windows command line (src/core/vv_spawn.c) against the documented rules by which
 CommandLineToArgvW and the C runtime take one apart. The end of a `string` plays the terminating NUL.
 */
module CommandLine {
  import opened Common

  // ----- The documented parser

  /** What a second quote right after a quote inside a quoted part means; implementations differ. */
  datatype DoubledQuote = CloseThenOpen | LiteralStayInside | LiteralAndClose

  predicate IsBlank(c: char) { c == ' ' || c == '\t' }

  function Slashes(s: string): (n: nat)
    ensures n <= |s| && forall i | 0 <= i < n :: s[i] == '\\'
    ensures n < |s| ==> s[n] != '\\'
  {
    if s != "" && s[0] == '\\' then 1 + Slashes(s[1..]) else 0
  }

  function Repeat(c: char, n: nat): (r: string)
    ensures |r| == n && forall i | 0 <= i < n :: r[i] == c
  {
    seq(n, _ => c)
  }

  /**
   Reads one argument. A run of backslashes is literal unless a quote follows it; then every two give one, and the
   quote is literal when one is left over, else it opens or closes a quoted part. A blank outside quotes ends it.
   */
  function One(s: string, quoted: bool, acc: string, rule: DoubledQuote): (r: (string, string))
    ensures |r.1| <= |s|
    ensures s != "" && (quoted || !IsBlank(s[0])) ==> |r.1| < |s|
    decreases |s|
  {
    var n := Slashes(s);
    if s == "" || (!quoted && IsBlank(s[0])) then (acc, s)
    else if n < |s| && s[n] == '"' then
      var acc' := acc + Repeat('\\', n / 2);
      if n % 2 == 1 then One(s[n + 1..], quoted, acc' + "\"", rule)
      else if quoted && n + 1 < |s| && s[n + 1] == '"' && rule != CloseThenOpen then
        One(s[n + 2..], rule == LiteralStayInside, acc' + "\"", rule)
      else One(s[n + 1..], !quoted, acc', rule)
    else if n > 0 then One(s[n..], quoted, acc + Repeat('\\', n), rule)
    else One(s[1..], quoted, acc + [s[0]], rule)
  }

  function Args(s: string, rule: DoubledQuote): seq<string>
    decreases |s|
  {
    if s == "" then []
    else if IsBlank(s[0]) then Args(s[1..], rule)
    else
      var (arg, rest) := One(s, false, "", rule);
      [arg] + Args(rest, rule)
  }

  function Find(s: string, stop: char -> bool): (n: nat)
    ensures n <= |s| && (forall i | 0 <= i < n :: !stop(s[i])) && (n < |s| ==> stop(s[n]))
  {
    if s == "" || stop(s[0]) then 0 else 1 + Find(s[1..], stop)
  }

  /** The program name: up to the next quote when it starts with one, else up to a blank; backslashes mean nothing. */
  function Program(s: string): (string, string) {
    if s != "" && s[0] == '"' then
      var n := Find(s[1..], c => c == '"');
      (s[1..][..n], if n < |s| - 1 then s[1..][n + 1..] else "")
    else
      var n := Find(s, IsBlank);
      (s[..n], s[n..])
  }

  function Parse(s: string, rule: DoubledQuote): seq<string> {
    var (name, rest) := Program(s);
    [name] + Args(rest, rule)
  }

  // ----- What the code writes

  predicate IsSpecial(c: char) { c == ' ' || c == '\t' || c == '\n' || c == '\U{0B}' || c == '"' }

  predicate NeedsQuotes(a: string) { a == "" || exists i | 0 <= i < |a| :: IsSpecial(a[i]) }

  /** An argument goes bare unless it is empty or has a blank, a tab, a newline, a vertical tab or a quote in it. */
  lemma {:induction false} QuotesIff(a: string)
    ensures !NeedsQuotes(a) <==>
              a != "" && ' ' !in a && '\t' !in a && '\n' !in a && '\U{0B}' !in a && '"' !in a
  {
    assert forall i | 0 <= i < |a| :: a[i] in a;
    if exists i :: 0 <= i < |a| && IsSpecial(a[i]) {
    } else {
      assert forall c | c in a :: !IsSpecial(c);
    }
  }

  /** The inside of the quotes around `a`. */
  function Inside(a: string): string
    decreases |a|
  {
    var n := Slashes(a);
    if n == |a| then Repeat('\\', 2 * n)
    else if a[n] == '"' then Repeat('\\', 2 * n + 1) + "\"" + Inside(a[n + 1..])
    else Repeat('\\', n) + [a[n]] + Inside(a[n + 1..])
  }

  function Quote(a: string): string {
    if NeedsQuotes(a) then "\"" + Inside(a) + "\"" else a
  }

  function Join(argv: seq<string>): string {
    if argv == [] then ""
    else Join(argv[..|argv| - 1]) + (if |argv| > 1 then " " else "") + Quote(argv[|argv| - 1])
  }

  // ----- Round trip

  /** What may follow an argument: nothing, or the blank before the next one. */
  predicate EndsArgument(tail: string) { tail == "" || tail[0] == ' ' }

  lemma {:induction false} SlashesOf(n: nat, s: string)
    requires s == "" || s[0] != '\\'
    ensures Slashes(Repeat('\\', n) + s) == n
  {
    var t := Repeat('\\', n) + s;
    if n == 0 {
      assert t == s;
    } else {
      assert t[1..] == Repeat('\\', n - 1) + s;
      SlashesOf(n - 1, s);
    }
  }

  /** A run of backslashes and the character after it, inside quotes. */
  lemma {:induction false} OneRun(n: nat, c: char, s: string, acc: string, rule: DoubledQuote)
    requires c != '\\' && c != '"'
    ensures One(Repeat('\\', n) + [c] + s, true, acc, rule) == One(s, true, acc + Repeat('\\', n) + [c], rule)
  {
    var t := Repeat('\\', n) + [c] + s;
    assert t == Repeat('\\', n) + ([c] + s);
    SlashesOf(n, [c] + s);
    SlashesOf(0, [c] + s);
    assert t[n..] == [c] + s;
    assert ([c] + s)[1..] == s;
    if n == 0 {
      assert t == [c] + s;
      assert acc + Repeat('\\', 0) == acc;
    }
  }

  /** An escaped quote, inside quotes. */
  lemma {:induction false} OneEscapedQuote(n: nat, s: string, acc: string, rule: DoubledQuote)
    ensures One(Repeat('\\', 2 * n + 1) + "\"" + s, true, acc, rule) == One(s, true, acc + Repeat('\\', n) + "\"", rule)
  {
    hide Slashes, Repeat, One;
    var t := Repeat('\\', 2 * n + 1) + "\"" + s;
    assert t == Repeat('\\', 2 * n + 1) + ("\"" + s);
    SlashesOf(2 * n + 1, "\"" + s);
    assert t[2 * n + 2..] == s;
    OneAtOddQuote(t, 2 * n + 1, acc, rule);
  }

  lemma {:induction false} OneAtOddQuote(t: string, m: nat, acc: string, rule: DoubledQuote)
    requires m == Slashes(t) < |t| && t[m] == '"' && m % 2 == 1
    ensures One(t, true, acc, rule) == One(t[m + 1..], true, acc + Repeat('\\', m / 2) + "\"", rule)
  {
    hide Slashes, Repeat;
  }

  /** The closing quote after the doubled trailing backslashes. */
  lemma {:induction false} OneClose(n: nat, tail: string, acc: string, rule: DoubledQuote)
    requires EndsArgument(tail)
    ensures One(Repeat('\\', 2 * n) + "\"" + tail, true, acc, rule) == (acc + Repeat('\\', n), tail)
  {
    hide Slashes, Repeat;
    var t := Repeat('\\', 2 * n) + "\"" + tail;
    assert t == Repeat('\\', 2 * n) + ("\"" + tail);
    SlashesOf(2 * n, "\"" + tail);
    assert t[2 * n + 1..] == tail;
  }

  /** `Inside` one run of backslashes and one character at a time. */
  lemma {:induction false} InsideStep(a: string, n: nat, tail: string)
    requires n == Slashes(a) < |a|
    ensures Inside(a) + "\"" + tail ==
            (if a[n] == '"' then Repeat('\\', 2 * n + 1) + "\"" else Repeat('\\', n) + [a[n]])
            + (Inside(a[n + 1..]) + "\"" + tail)
  {
    hide Repeat, Slashes, Inside;
    var head := if a[n] == '"' then Repeat('\\', 2 * n + 1) + "\"" else Repeat('\\', n) + [a[n]];
    InsideDef(a, n);
    Regroup(head, Inside(a[n + 1..]), '"', tail);
  }

  lemma {:induction false} LeadingRun(a: string, n: nat)
    requires n == Slashes(a) < |a|
    ensures a == Repeat('\\', n) + [a[n]] + a[n + 1..]
  {
  }

  lemma {:induction false} Regroup(acc: string, run: string, c: char, rest: string)
    ensures acc + run + [c] + rest == acc + (run + [c] + rest)
  {
  }

  lemma {:induction false} Enclosed(acc: string, inside: string)
    ensures acc + "\"" + inside + "\"" == acc + ("\"" + inside + "\"")
  {
  }

  lemma {:induction false} OneQuoted(a: string, tail: string, acc: string, rule: DoubledQuote)
    requires EndsArgument(tail)
    ensures One(Inside(a) + "\"" + tail, true, acc, rule) == (acc + a, tail)
    decreases |a|
  {
    hide One;
    var n := Slashes(a);
    if n == |a| {
      OneClose(n, tail, acc, rule);
      assert Repeat('\\', n) == a;
    } else {
      hide Inside, Repeat;
      var rest := a[n + 1..];
      InsideStep(a, n, tail);
      LeadingRun(a, n);
      if a[n] == '"' {
        OneEscapedQuote(n, Inside(rest) + "\"" + tail, acc, rule);
      } else {
        OneRun(n, a[n], Inside(rest) + "\"" + tail, acc, rule);
      }
      OneQuoted(rest, tail, acc + Repeat('\\', n) + [a[n]], rule);
      Regroup(acc, Repeat('\\', n), a[n], rest);
    }
  }

  /** A run of backslashes outside quotes that no quote follows. */
  lemma {:induction false} OnePlainRun(n: nat, s: string, acc: string, rule: DoubledQuote)
    requires n > 0 && (s == "" || (s[0] != '\\' && s[0] != '"'))
    ensures One(Repeat('\\', n) + s, false, acc, rule) == One(s, false, acc + Repeat('\\', n), rule)
  {
    SlashesOf(n, s);
    assert (Repeat('\\', n) + s)[n..] == s;
  }

  lemma {:induction false} OnePlainChar(c: char, s: string, acc: string, rule: DoubledQuote)
    requires c != '\\' && c != '"' && !IsBlank(c)
    ensures One([c] + s, false, acc, rule) == One(s, false, acc + [c], rule)
  {
    assert ([c] + s)[1..] == s;
  }

  lemma {:induction false} SplitAt(acc: string, a: string, k: nat, tail: string)
    requires k <= |a|
    ensures a + tail == a[..k] + (a[k..] + tail)
    ensures acc + a[..k] + a[k..] == acc + a
  {
  }

  /** An argument written without quotes. */
  lemma {:induction false} OnePlain(a: string, tail: string, acc: string, rule: DoubledQuote)
    requires EndsArgument(tail) && forall i | 0 <= i < |a| :: !IsSpecial(a[i])
    ensures One(a + tail, false, acc, rule) == (acc + a, tail)
    decreases |a|
  {
    if a == "" {
      assert a + tail == tail && acc + a == acc;
    } else {
      hide One;
      var n := Slashes(a);
      var k := if n > 0 then n else 1;
      var rest := a[k..];
      SplitAt(acc, a, k, tail);
      if n > 0 {
        assert a[..k] == Repeat('\\', n);
        OnePlainRun(n, rest + tail, acc, rule);
      } else {
        assert a[..k] == [a[0]];
        OnePlainChar(a[0], rest + tail, acc, rule);
      }
      OnePlain(rest, tail, acc + a[..k], rule);
    }
  }

  lemma {:induction false} OneOpen(s: string, rule: DoubledQuote)
    ensures One("\"" + s, false, "", rule) == One(s, true, "", rule)
  {
    var t := "\"" + s;
    assert Slashes(t) == 0 && t[1..] == s;
    assert "" + Repeat('\\', 0) == "";
  }

  lemma {:induction false} OneArgument(a: string, tail: string, rule: DoubledQuote)
    requires EndsArgument(tail)
    ensures Quote(a) + tail != "" && !IsBlank((Quote(a) + tail)[0])
    ensures One(Quote(a) + tail, false, "", rule) == (a, tail)
  {
    hide One, Inside;
    if NeedsQuotes(a) {
      assert Quote(a) + tail == "\"" + (Inside(a) + "\"" + tail);
      OneOpen(Inside(a) + "\"" + tail, rule);
      OneQuoted(a, tail, "", rule);
    } else {
      OnePlain(a, tail, "", rule);
    }
    assert "" + a == a;
  }

  /** The arguments after the first, each with its blank in front. */
  function Tail(args: seq<string>): string {
    if args == [] then "" else " " + Quote(args[0]) + Tail(args[1..])
  }

  lemma {:induction false} ArgsOfTail(args: seq<string>, rule: DoubledQuote)
    ensures Args(Tail(args), rule) == args
  {
    hide One, Quote;
    if args != [] {
      var rest := Tail(args[1..]);
      assert Tail(args)[1..] == Quote(args[0]) + rest;
      OneArgument(args[0], rest, rule);
      ArgsOfTail(args[1..], rule);
    }
  }

  lemma {:induction false} JoinNone()
    ensures Join([]) == "" && Tail([]) == ""
  {
  }

  lemma {:induction false} JoinLast(argv: seq<string>)
    requires argv != []
    ensures var l := |argv| - 1;
            Join(argv) == Join(argv[..l]) + (if l > 0 then " " else "") + Quote(argv[l])
  {
    hide Quote;
  }

  lemma {:induction false} JoinIsTail(argv: seq<string>)
    requires argv != []
    ensures Join(argv) == Quote(argv[0]) + Tail(argv[1..])
  {
    hide Quote, Tail, Join;
    var l := |argv| - 1;
    JoinLast(argv);
    if l == 0 {
      JoinNone();
      assert argv[..0] == [] && argv[1..] == [];
    } else {
      JoinIsTail(argv[..l]);
      TailOfAppend(argv[..l][1..], argv[l]);
      assert argv[..l][1..] + [argv[l]] == argv[1..];
    }
  }

  lemma {:induction false} TailOfAppend(args: seq<string>, a: string)
    ensures Tail(args + [a]) == Tail(args) + " " + Quote(a)
  {
    if args == [] {
      assert [a][1..] == [];
    } else {
      assert (args + [a])[1..] == args[1..] + [a];
      TailOfAppend(args[1..], a);
    }
  }

  /** The quoted form of a name without quotes is the name with its trailing backslashes doubled. */
  lemma {:induction false} InsideOfName(a: string)
    requires '"' !in a
    ensures '"' !in Inside(a) && |Inside(a)| >= |a|
    ensures Inside(a) == a <==> a == "" || a[|a| - 1] != '\\'
    decreases |a|
  {
    hide Inside;
    var n := Slashes(a);
    InsideDef(a, n);
    if n < |a| {
      var rest := a[n + 1..];
      LeadingRun(a, n);
      hide Slashes, Repeat;
      var head := Repeat('\\', n) + [a[n]];
      assert a == head + rest && Inside(a) == head + Inside(rest);
      InsideOfName(rest);
      SameTail(head, Inside(rest), rest);
      assert rest != [] ==> rest[|rest| - 1] == a[|a| - 1];
    }
  }

  lemma {:induction false} SameTail(head: string, a: string, b: string)
    ensures head + a == head + b <==> a == b
  {
    if head + a == head + b {
      assert a == (head + a)[|head|..] && b == (head + b)[|head|..];
    }
  }

  /**
   The command line names exactly the arguments after the program name, under every reading of doubled quotes, and
   names the program correctly exactly when its name needs no quotes or does not end in a backslash.
   */
  lemma {:induction false} RoundTrip(argv: seq<string>, rule: DoubledQuote)
    requires argv != [] && argv[0] != "" && '"' !in argv[0]
    ensures |Parse(Join(argv), rule)| == |argv|
    ensures Parse(Join(argv), rule)[1..] == argv[1..]
    ensures Parse(Join(argv), rule)[0] == argv[0] <==> !NeedsQuotes(argv[0]) || argv[0][|argv[0]| - 1] != '\\'
  {
    hide Args, Inside, Join, Program;
    var a, rest := argv[0], Tail(argv[1..]);
    JoinIsTail(argv);
    ArgsOfTail(argv[1..], rule);
    InsideOfName(a);
    var s := Join(argv);
    if NeedsQuotes(a) {
      assert s == ("\"" + Inside(a) + "\"") + rest;
      ProgramOfQuoted(Inside(a), rest);
    } else {
      ProgramOfPlain(a, rest);
    }
  }

  /** A name that comes back wrong: it needs quotes and ends in a backslash, which they double. */
  lemma {:induction false} NameWithBackslash(rule: DoubledQuote)
    ensures |Parse(Join(["a b\\"]), rule)| == 1 && Parse(Join(["a b\\"]), rule)[0] != "a b\\"
  {
    hide Parse, Join;
    var a := "a b\\";
    assert IsSpecial(a[1]);
    RoundTrip([a], rule);
  }

  lemma {:induction false} ProgramOfQuoted(inside: string, rest: string)
    requires '"' !in inside
    ensures Program("\"" + inside + "\"" + rest) == (inside, rest)
  {
    var s := "\"" + inside + "\"" + rest;
    var n := Find(s[1..], c => c == '"');
    assert s[1..][|inside|] == '"';
    assert n == |inside|;
    assert s[1..][..n] == inside && s[1..][n + 1..] == rest;
  }

  lemma {:induction false} ProgramOfPlain(a: string, rest: string)
    requires !NeedsQuotes(a) && EndsArgument(rest)
    ensures Program(a + rest) == (a, rest)
  {
    var s := a + rest;
    var n := Find(s, IsBlank);
    assert forall i | 0 <= i < |a| :: s[i] == a[i] && !IsSpecial(a[i]);
    assert rest != "" ==> s[|a|] == rest[0];
    assert n == |a|;
  }

  // ----- The code

  /** The growing wide-character buffer the command line is written to. */
  class WideBuffer {
    var p: array<char>
    var len: nat

    ghost predicate Valid()
      reads this, p
    {
      if p.Length == 0 then len == 0 else len < p.Length && p[len] == '\0'
    }

    ghost function Contents(): string
      reads this, p
      requires Valid()
    {
      p[..len]
    }

    constructor ()
      ensures Valid() && Contents() == "" && fresh(p)
    {
      p, len := new char[0], 0;
    }

    method Put(s: string)
      requires Valid()
      modifies this, p
      ensures Valid() && Contents() == old(Contents()) + s && (p == old(p) || fresh(p))
    {
      var n := |s|;
      if len + n + 1 > p.Length {
        var ncap := if p.Length > 0 then p.Length * 2 else 256;
        while ncap < len + n + 1
          invariant ncap > 0
          decreases len + n + 1 - ncap
        {
          ncap := ncap * 2;
        }
        var np := new char[ncap](i requires 0 <= i < ncap reads this, p =>
          if i < len && i < p.Length then p[i] else '\0');
        p := np;
      }
      assert p[..len] == old(Contents());
      forall i | 0 <= i < n {
        p[len + i] := s[i];
      }
      assert p[..len + n] == old(Contents()) + s;
      len := len + n;
      p[len] := '\0';
    }

    method Fill(c: char, n: nat)
      requires Valid()
      modifies this, p
      ensures Valid() && Contents() == old(Contents()) + Repeat(c, n) && (p == old(p) || fresh(p))
    {
      for i := 0 to n
        invariant Valid() && Contents() == old(Contents()) + Repeat(c, i) && (p == old(p) || fresh(p))
      {
        Put([c]);
        assert Repeat(c, i + 1) == Repeat(c, i) + [c];
      }
    }

    /** Writes one run of backslashes and what follows it; `done` at the end of the argument. */
    method PutRun(a: string, from: nat) returns (i: nat, done: bool)
      requires Valid() && from <= |a|
      modifies this, p
      ensures Valid() && (p == old(p) || fresh(p))
      ensures i <= |a|
      ensures if done then Contents() == old(Contents()) + Inside(a[from..])
              else from < i && Contents() + Inside(a[i..]) == old(Contents()) + Inside(a[from..])
    {
      hide Repeat, Slashes, Inside;
      ghost var was := Contents();
      var slashes := CountSlashes(a, from);
      i, done := from + slashes, false;
      InsideFrom(a, from);
      if i == |a| {
        Fill('\\', slashes * 2);
        return i, true;
      }
      if a[i] == '"' {
        Fill('\\', slashes * 2 + 1);
        Put("\"");
        Regroup(was, Repeat('\\', slashes * 2 + 1), '"', Inside(a[i + 1..]));
      } else {
        Fill('\\', slashes);
        Put([a[i]]);
        Regroup(was, Repeat('\\', slashes), a[i], Inside(a[i + 1..]));
      }
      i := i + 1;
    }

    /** Appends one argument. */
    method PutArgument(a: string)
      requires Valid()
      modifies this, p
      ensures Valid() && Contents() == old(Contents()) + Quote(a) && (p == old(p) || fresh(p))
      ensures var bare := a != "" && ' ' !in a && '\t' !in a && '\n' !in a && '\U{0B}' !in a && '"' !in a;
              Contents() == old(Contents()) + if bare then a else "\"" + Inside(a) + "\""
    {
      hide Inside, NeedsQuotes;
      QuotesIff(a);
      if !NeedsQuotes(a) {
        Put(a);
        return;
      }
      Put("\"");
      PutInside(a);
      Put("\"");
      Enclosed(old(Contents()), Inside(a));
    }

    method PutInside(a: string)
      requires Valid()
      modifies this, p
      ensures Valid() && Contents() == old(Contents()) + Inside(a) && (p == old(p) || fresh(p))
    {
      hide Inside;
      var i, done := 0, false;
      assert a[0..] == a;
      while !done
        invariant 0 <= i <= |a| && Valid() && (p == old(p) || fresh(p))
        invariant old(Contents()) + Inside(a) == if done then Contents() else Contents() + Inside(a[i..])
        decreases !done, |a| - i
      {
        i, done := PutRun(a, i);
      }
    }
  }

  /** `Inside` of what is left of an argument. */
  lemma {:induction false} InsideFrom(a: string, from: nat)
    requires from <= |a|
    ensures var n := Slashes(a[from..]); var i := from + n;
            && i <= |a|
            && Inside(a[from..]) ==
                 if i == |a| then Repeat('\\', n * 2)
                 else if a[i] == '"' then Repeat('\\', n * 2 + 1) + ['"'] + Inside(a[i + 1..])
                 else Repeat('\\', n) + [a[i]] + Inside(a[i + 1..])
  {
    hide Repeat, Inside, Slashes;
    var s := a[from..];
    var n := Slashes(s);
    InsideDef(s, n);
    if n < |s| {
      assert s[n + 1..] == a[from + n + 1..] && s[n] == a[from + n];
    }
  }

  lemma {:induction false} InsideDef(s: string, n: nat)
    requires n == Slashes(s)
    ensures Inside(s) ==
            if n == |s| then Repeat('\\', n * 2)
            else if s[n] == '"' then Repeat('\\', n * 2 + 1) + "\"" + Inside(s[n + 1..])
            else Repeat('\\', n) + [s[n]] + Inside(s[n + 1..])
  {
    hide Slashes, Repeat;
  }

  method CountSlashes(a: string, from: nat) returns (n: nat)
    requires from <= |a|
    ensures n == Slashes(a[from..])
  {
    n := 0;
    while from + n < |a| && a[from + n] == '\\'
      invariant from + n <= |a| && forall k | 0 <= k < n :: a[from..][k] == '\\'
    {
      n := n + 1;
    }
    RunLength(a[from..], n);
  }

  lemma {:induction false} RunLength(a: string, n: nat)
    requires n <= |a| && (forall i | 0 <= i < n :: a[i] == '\\') && (n < |a| ==> a[n] != '\\')
    ensures Slashes(a) == n
  {
  }

  /** The longest command line CreateProcess takes, with its NUL. */
  const MAX_COMMAND := 32767

  /** The command line for `argv`, or nothing when it cannot be written. */
  method CommandFor(argv: seq<string>) returns (cmd: Option<string>)
    ensures cmd == None <==>
            argv == [] || argv[0] == "" || '"' in argv[0] || |Join(argv)| >= 32767
    ensures cmd.Some? ==> forall rule :: Parse(cmd.value, rule)[1..] == argv[1..]
    ensures cmd.Some? ==> cmd.value == Join(argv)
  {
    if argv == [] || argv[0] == "" || '"' in argv[0] {
      return None;
    }
    var b := new WideBuffer();
    for i := 0 to |argv|
      invariant b.Valid() && fresh(b) && fresh(b.p) && b.Contents() == Join(argv[..i])
    {
      if i > 0 {
        b.Put(" ");
      }
      b.PutArgument(argv[i]);
      assert argv[..i + 1][..i] == argv[..i];
    }
    assert argv[..|argv|] == argv;
    if b.len >= MAX_COMMAND {
      return None;
    }
    cmd := Some(b.p[..b.len]);
    forall rule {
      RoundTrip(argv, rule);
    }
  }
}
