/** Formats in sequence: ordinary characters print as themselves, and pieces of a
    format print one after another, each with its own arguments. */
module PrintfOutput {
  import opened Options
  import opened Sequences
  import opened PrintfModel

  // --------------------------------------------- what comes later does not matter

  lemma AtWithin(x: Text, rest: Text, i: nat)
    requires i < |x|
    ensures At(x + rest, i) == At(x, i)
  {}

  lemma {:induction false} AtoiWithin(x: Text, rest: Text, i: nat, v: nat)
    requires i <= |x| && Atoi(x, i, v).1 < |x|
    ensures Atoi(x + rest, i, v) == Atoi(x, i, v)
    decreases |x| - i
  {
    if i < |x| {
      AtWithin(x, rest, i);
      if IsDigit(x[i]) { AtoiWithin(x, rest, i + 1, (v * 10 + (x[i] - '0') as nat) % WORD); }
    }
  }

  lemma {:induction false} FlagsWithin(x: Text, rest: Text, i: nat, f: Flags)
    requires i <= |x| && ParseFlags(x, i, f).1 < |x|
    ensures ParseFlags(x + rest, i, f) == ParseFlags(x, i, f)
    decreases |x| - i
  {
    if i < |x| {
      AtWithin(x, rest, i);
      if IsFlag(x[i]) { FlagsWithin(x, rest, i + 1, WithFlag(f, x[i])); }
    }
  }

  /** The same spot with more arguments to come. */
  function More(s: Spot, more: seq<Arg>): Spot { s.(args := s.args + more) }

  lemma FirstOfMore(args: seq<Arg>, more: seq<Arg>)
    requires args != []
    ensures (args + more)[0] == args[0] && (args + more)[1..] == args[1..] + more
  {}

  lemma {:induction false} WidthWithin(x: Text, rest: Text, s: Spot, more: seq<Arg>)
    requires s.i < |x| && ParseWidth(x, s).Some? && ParseWidth(x, s).value.i < |x|
    ensures ParseWidth(x + rest, More(s, more)) == Some(More(ParseWidth(x, s).value, more))
  {
    AtWithin(x, rest, s.i);
    if IsDigit(x[s.i]) {
      AtoiWithin(x, rest, s.i, 0);
    } else if x[s.i] == '*' {
      FirstOfMore(s.args, more);
    }
  }

  lemma {:induction false} PrecisionWithin(x: Text, rest: Text, s: Spot, more: seq<Arg>)
    requires s.i < |x| && ParsePrecision(x, s).Some? && ParsePrecision(x, s).value.i < |x|
    ensures ParsePrecision(x + rest, More(s, more)) == Some(More(ParsePrecision(x, s).value, more))
  {
    AtWithin(x, rest, s.i);
    if x[s.i] == '.' {
      AtWithin(x, rest, s.i + 1);
      if IsDigit(x[s.i + 1]) {
        AtoiWithin(x, rest, s.i + 1, 0);
      } else if x[s.i + 1] == '*' {
        FirstOfMore(s.args, more);
      }
    }
  }

  lemma {:induction false} LengthWithin(x: Text, rest: Text, s: Spot, more: seq<Arg>)
    requires s.i < |x| && ParseLength(x, s).i < |x|
    ensures ParseLength(x + rest, More(s, more)) == More(ParseLength(x, s), more)
  {
    AtWithin(x, rest, s.i);
    if x[s.i] == 'l' || x[s.i] == 'h' { AtWithin(x, rest, s.i + 1); }
  }

  lemma {:induction false} ParsedWithin(x: Text, rest: Text, i: nat, args: seq<Arg>, more: seq<Arg>)
    requires i <= |x| && Parsed(x, i, args).Some? && Parsed(x, i, args).value.i < |x|
    ensures Parsed(x + rest, i, args + more) == Some(More(Parsed(x, i, args).value, more))
  {
    var (f, j) := ParseFlags(x, i, NO_FLAGS);
    var s := Spot(f, 0, 0, j, args);
    var s1 := ParseWidth(x, s).value;
    var s2 := ParsePrecision(x, s1).value;
    assert j <= s1.i <= s2.i <= ParseLength(x, s2).i;
    FlagsWithin(x, rest, i, NO_FLAGS);
    WidthWithin(x, rest, s, more);
    PrecisionWithin(x, rest, s1, more);
    LengthWithin(x, rest, s2, more);
  }

  lemma {:induction false} ConvertMore(c: char, s: Spot, more: seq<Arg>)
    requires Convert(c, s).Some?
    ensures var (t, left) := Convert(c, s).value;
            Convert(c, More(s, more)) == Some((t, left + more))
  {
    if s.args != [] { FirstOfMore(s.args, more); }
  }

  lemma FinishedBy(fmt: Text, s: Spot, c: char, r: Option<(Text, seq<Arg>)>)
    requires s.i < |fmt| && fmt[s.i] == c && Convert(c, s) == r
    ensures Finished(fmt, Some(s)) == match r case None => None case Some(v) => Some((v.0, s.i + 1, v.1))
  {}

  lemma FinishedSome(fmt: Text, s: Spot)
    requires Finished(fmt, Some(s)).Some?
    ensures s.i < |fmt| && Convert(fmt[s.i], s).Some?
  {}

  lemma {:induction false} FinishedMore(x: Text, fmt: Text, s: Spot, c: char, r: (Text, seq<Arg>), more: seq<Arg>)
    requires s.i < |x| && s.i < |fmt| && x[s.i] == fmt[s.i] == c && Convert(c, s) == Some(r)
    ensures Finished(x, Some(s)) == Some((r.0, s.i + 1, r.1))
    ensures Finished(fmt, Some(More(s, more))) == Some((r.0, s.i + 1, r.1 + more))
  {
    ConvertMore(c, s, more);
    FinishedBy(x, s, c, Some(r));
    FinishedBy(fmt, More(s, more), c, Some((r.0, r.1 + more)));
  }

  lemma {:induction false} FinishedWithin(x: Text, rest: Text, s: Spot, more: seq<Arg>)
    requires Finished(x, Some(s)).Some?
    ensures var (t, j, left) := Finished(x, Some(s)).value;
            Finished(x + rest, Some(More(s, more))) == Some((t, j, left + more))
  {
    FinishedSome(x, s);
    assert (x + rest)[s.i] == x[s.i];
    FinishedMore(x, x + rest, s, x[s.i], Convert(x[s.i], s).value, more);
  }

  lemma {:induction false} DirectiveWithin(x: Text, rest: Text, i: nat, args: seq<Arg>, more: seq<Arg>)
    requires i <= |x| && Directive(x, i, args).Some?
    ensures var (t, j, left) := Directive(x, i, args).value;
            Directive(x + rest, i, args + more) == Some((t, j, left + more))
  {
    var s := Parsed(x, i, args).value;
    ParsedWithin(x, rest, i, args, more);
    FinishedWithin(x, rest, s, more);
  }

  // -------------------------------------------- what came before does not matter

  /** From k on, fmt is x. */
  predicate Tail(fmt: Text, k: nat, x: Text) { k <= |fmt| && fmt[k..] == x }

  lemma AtShifted(fmt: Text, k: nat, x: Text, i: nat)
    requires Tail(fmt, k, x)
    ensures At(fmt, k + i) == At(x, i)
  {
    if i < |x| { assert fmt[k..][i] == fmt[k + i]; }
  }

  lemma {:induction false} AtoiShifted(fmt: Text, k: nat, x: Text, i: nat, v: nat)
    requires Tail(fmt, k, x) && i <= |x|
    ensures var (n, j) := Atoi(x, i, v);
            Atoi(fmt, k + i, v) == (n, k + j)
    decreases |x| - i
  {
    AtShifted(fmt, k, x, i);
    if IsDigit(At(x, i)) { AtoiShifted(fmt, k, x, i + 1, (v * 10 + (x[i] - '0') as nat) % WORD); }
  }

  lemma {:induction false} FlagsShifted(fmt: Text, k: nat, x: Text, i: nat, f: Flags)
    requires Tail(fmt, k, x) && i <= |x|
    ensures var (g, j) := ParseFlags(x, i, f);
            ParseFlags(fmt, k + i, f) == (g, k + j)
    decreases |x| - i
  {
    AtShifted(fmt, k, x, i);
    if IsFlag(At(x, i)) { FlagsShifted(fmt, k, x, i + 1, WithFlag(f, x[i])); }
  }

  function Moved(s: Spot, k: nat): Spot { s.(i := k + s.i) }

  function MovedIf(s: Option<Spot>, k: nat): Option<Spot> {
    match s case None => None case Some(t) => Some(Moved(t, k))
  }

  lemma {:induction false} WidthShifted(fmt: Text, k: nat, x: Text, s: Spot)
    requires Tail(fmt, k, x) && s.i <= |x|
    ensures ParseWidth(fmt, Moved(s, k)) == MovedIf(ParseWidth(x, s), k)
    ensures ParseWidth(x, s).Some? ==> ParseWidth(x, s).value.i <= |x|
  {
    AtShifted(fmt, k, x, s.i);
    AtoiShifted(fmt, k, x, s.i, 0);
    AtoiInside(x, s.i, 0);
  }

  lemma {:induction false} AtoiInside(x: Text, i: nat, v: nat)
    requires i <= |x|
    ensures Atoi(x, i, v).1 <= |x|
    decreases |x| - i
  {
    if IsDigit(At(x, i)) { AtoiInside(x, i + 1, (v * 10 + (x[i] - '0') as nat) % WORD); }
  }

  lemma {:induction false} FlagsInside(x: Text, i: nat, f: Flags)
    requires i <= |x|
    ensures ParseFlags(x, i, f).1 <= |x|
    decreases |x| - i
  {
    if IsFlag(At(x, i)) { FlagsInside(x, i + 1, WithFlag(f, x[i])); }
  }

  lemma {:induction false} PrecisionShifted(fmt: Text, k: nat, x: Text, s: Spot)
    requires Tail(fmt, k, x) && s.i <= |x|
    ensures ParsePrecision(fmt, Moved(s, k)) == MovedIf(ParsePrecision(x, s), k)
    ensures ParsePrecision(x, s).Some? ==> ParsePrecision(x, s).value.i <= |x|
  {
    AtShifted(fmt, k, x, s.i);
    if At(x, s.i) == '.' {
      AtShifted(fmt, k, x, s.i + 1);
      AtoiShifted(fmt, k, x, s.i + 1, 0);
      AtoiInside(x, s.i + 1, 0);
    }
  }

  lemma {:induction false} LengthShifted(fmt: Text, k: nat, x: Text, s: Spot)
    requires Tail(fmt, k, x)
    ensures ParseLength(fmt, Moved(s, k)) == Moved(ParseLength(x, s), k)
  {
    AtShifted(fmt, k, x, s.i);
    AtShifted(fmt, k, x, s.i + 1);
  }

  lemma {:induction false} ParsedShifted(fmt: Text, k: nat, x: Text, i: nat, args: seq<Arg>)
    requires Tail(fmt, k, x) && i <= |x|
    ensures Parsed(fmt, k + i, args) == MovedIf(Parsed(x, i, args), k)
  {
    var (f, j) := ParseFlags(x, i, NO_FLAGS);
    var s := Spot(f, 0, 0, j, args);
    FlagsShifted(fmt, k, x, i, NO_FLAGS);
    FlagsInside(x, i, NO_FLAGS);
    WidthShifted(fmt, k, x, s);
    if s1 :| ParseWidth(x, s) == Some(s1) {
      PrecisionShifted(fmt, k, x, s1);
      if s2 :| ParsePrecision(x, s1) == Some(s2) { LengthShifted(fmt, k, x, s2); }
    }
  }

  lemma ConvertMoved(c: char, s: Spot, k: nat)
    ensures Convert(c, Moved(s, k)) == Convert(c, s)
  {}

  lemma CharShifted(fmt: Text, k: nat, x: Text, i: nat)
    requires Tail(fmt, k, x) && i < |x|
    ensures |fmt| == k + |x| && fmt[k + i] == x[i]
  {
    assert fmt[k..][i] == fmt[k + i];
  }

  /** One turn of the format loop: what it prints, where it goes on, and with what. */
  type Turn = Option<(Text, nat, seq<Arg>)>

  function MovedTo(d: Turn, k: nat): Turn {
    match d case None => None case Some(r) => Some((r.0, k + r.1, r.2))
  }

  lemma FinishedAlike(x: Text, fmt: Text, s: Spot, t: Spot, c: char, r: Option<(Text, seq<Arg>)>, k: nat)
    requires s.i < |x| && t.i < |fmt| && t.i == k + s.i && x[s.i] == fmt[t.i] == c
    requires Convert(c, s) == r && Convert(c, t) == r
    ensures Finished(fmt, Some(t)) == MovedTo(Finished(x, Some(s)), k)
  {
    var end := if r.Some? then Some((r.value.0, s.i + 1, r.value.1)) else None;
    FinishedEnd(x, s, c, r, end);
    FinishedEnd(fmt, t, c, r, MovedTo(end, k));
  }

  lemma FinishedEnd(fmt: Text, s: Spot, c: char, r: Option<(Text, seq<Arg>)>, end: Turn)
    requires s.i < |fmt| && fmt[s.i] == c && Convert(c, s) == r
    requires end == if r.Some? then Some((r.value.0, s.i + 1, r.value.1)) else None
    ensures Finished(fmt, Some(s)) == end
  {
    FinishedBy(fmt, s, c, r);
  }

  lemma FinishedPast(x: Text, s: Spot)
    requires s.i >= |x|
    ensures Finished(x, Some(s)) == None
  {}

  lemma FinishedMoved(fmt: Text, x: Text, s: Option<Spot>, k: nat)
    requires |fmt| == k + |x| && (s.Some? && s.value.i < |x| ==> fmt[k + s.value.i] == x[s.value.i])
    ensures Finished(fmt, MovedIf(s, k)) == MovedTo(Finished(x, s), k)
  {
    if s.Some? {
      var u := s.value;
      if u.i < |x| {
        ConvertMoved(x[u.i], u, k);
        FinishedAlike(x, fmt, u, Moved(u, k), x[u.i], Convert(x[u.i], u), k);
      } else {
        FinishedPast(x, u);
        FinishedPast(fmt, Moved(u, k));
      }
    }
  }

  lemma DirectiveAlike(fmt: Text, p: nat, x: Text, i: nat, args: seq<Arg>, s: Option<Spot>, k: nat)
    requires Parsed(x, i, args) == s && Parsed(fmt, p, args) == MovedIf(s, k)
    requires |fmt| == k + |x| && (s.Some? && s.value.i < |x| ==> fmt[k + s.value.i] == x[s.value.i])
    ensures Directive(fmt, p, args) == MovedTo(Directive(x, i, args), k)
  {
    FinishedMoved(fmt, x, s, k);
  }

  lemma {:induction false} FieldsShifted(fmt: Text, k: nat, x: Text, i: nat, p: nat, args: seq<Arg>)
    returns (s: Option<Spot>)
    requires Tail(fmt, k, x) && i <= |x| && p == k + i
    ensures Parsed(x, i, args) == s && Parsed(fmt, p, args) == MovedIf(s, k)
    ensures |fmt| == k + |x| && (s.Some? && s.value.i < |x| ==> fmt[k + s.value.i] == x[s.value.i])
  {
    s := Parsed(x, i, args);
    ParsedShifted(fmt, k, x, i, args);
    if s.Some? && s.value.i < |x| { CharShifted(fmt, k, x, s.value.i); }
  }

  lemma {:induction false} DirectiveShifted(fmt: Text, k: nat, x: Text, i: nat, p: nat, args: seq<Arg>)
    returns (d: Turn, e: Turn)
    requires Tail(fmt, k, x) && i <= |x| && p == k + i
    ensures d == Directive(x, i, args) && e == Directive(fmt, p, args) && e == MovedTo(d, k)
  {
    var s := FieldsShifted(fmt, k, x, i, p, args);
    DirectiveAlike(fmt, p, x, i, args, s, k);
    d, e := Directive(x, i, args), Directive(fmt, p, args);
  }

  function TurnAt(fmt: Text, i: nat, args: seq<Arg>): (d: Turn)
    requires i < |fmt|
    ensures d.Some? ==> i < d.value.1 <= |fmt|
  {
    if fmt[i] != '%' then Some(([fmt[i]], i + 1, args)) else Directive(fmt, i + 1, args)
  }

  function Turns(fmt: Text): (nat, seq<Arg>) -> Turn {
    (i: nat, args: seq<Arg>) => if i < |fmt| then TurnAt(fmt, i, args) else None
  }

  /** The format loop over any such turns. */
  function Run(n: nat, turns: (nat, seq<Arg>) -> Turn, i: nat, args: seq<Arg>): Option<Text>
    decreases if i < n then n - i else 0
  {
    if i >= n then Some("")
    else
      match turns(i, args)
      case None => None
      case Some(d) => if i < d.1 then Cons(d.0, Run(n, turns, d.1, d.2)) else None
  }

  lemma {:induction false} RenderRuns(fmt: Text, i: nat, args: seq<Arg>)
    ensures Render(fmt, i, args) == Run(|fmt|, Turns(fmt), i, args)
    decreases if i < |fmt| then |fmt| - i else 0
  {
    if i < |fmt| {
      var d := TurnAt(fmt, i, args);
      if d.Some? { RenderRuns(fmt, d.value.1, d.value.2); }
    }
  }

  /** Turns that do from k on what others do from 0 on. */
  ghost predicate Shifts(n: nat, turns: (nat, seq<Arg>) -> Turn, k: nat, moved: (nat, seq<Arg>) -> Turn) {
    forall j: nat, more: seq<Arg> :: j < n ==> moved(k + j, more) == MovedTo(turns(j, more), k)
  }

  lemma {:induction false} RunShifted(n: nat, turns: (nat, seq<Arg>) -> Turn, k: nat,
                                      moved: (nat, seq<Arg>) -> Turn, i: nat, args: seq<Arg>)
    requires Shifts(n, turns, k, moved)
    ensures Run(k + n, moved, k + i, args) == Run(n, turns, i, args)
    decreases if i < n then n - i else 0
  {
    if i < n {
      var d := turns(i, args);
      assert moved(k + i, args) == MovedTo(d, k);
      if d.Some? && i < d.value.1 { RunShifted(n, turns, k, moved, d.value.1, d.value.2); }
    }
  }

  /** The loop, run by whatever turns there are. */
  lemma {:induction false} RunAt(n: nat, turns: (nat, seq<Arg>) -> Turn, k: nat, moved: (nat, seq<Arg>) -> Turn,
                                 m: nat, args: seq<Arg>, out: Option<Text>, whole: Option<Text>)
    requires Shifts(n, turns, k, moved) && m == k + n
    requires out == Run(n, turns, 0, args) && whole == Run(m, moved, k, args)
    ensures whole == out
  {
    RunShifted(n, turns, k, moved, 0, args);
  }

  lemma TurnsAt(fmt: Text, i: nat, args: seq<Arg>, d: Turn)
    requires i < |fmt| && d == TurnAt(fmt, i, args)
    ensures Turns(fmt)(i, args) == d
  {}

  lemma DirectiveTurn(fmt: Text, i: nat, p: nat, args: seq<Arg>, d: Turn)
    requires i < |fmt| && fmt[i] == '%' && p == i + 1 && d == Directive(fmt, p, args)
    ensures TurnAt(fmt, i, args) == d
  {}

  /** A turn at a directive. */
  lemma TurnIs(fmt: Text, i: nat, p: nat, args: seq<Arg>, d: Turn)
    requires i < |fmt| && fmt[i] == '%' && p == i + 1 && d == Directive(fmt, p, args)
    ensures Turns(fmt)(i, args) == d
  {
    DirectiveTurn(fmt, i, p, args, d);
    TurnsAt(fmt, i, args, d);
  }

  lemma PlainTurn(fmt: Text, i: nat, args: seq<Arg>, c: char)
    requires i < |fmt| && fmt[i] == c && c != '%'
    ensures Turns(fmt)(i, args) == Some(([c], i + 1, args))
  {}

  lemma {:induction false} PercentShifted(fmt: Text, k: nat, x: Text, i: nat, j: nat, args: seq<Arg>)
    returns (d: Turn, e: Turn)
    requires Tail(fmt, k, x) && i < |x| && j < |fmt| && j == k + i && x[i] == fmt[j] == '%'
    ensures Turns(x)(i, args) == d && Turns(fmt)(j, args) == e && e == MovedTo(d, k)
  {
    d, e := DirectiveShifted(fmt, k, x, i + 1, j + 1, args);
    TurnIs(x, i, i + 1, args, d);
    TurnIs(fmt, j, j + 1, args, e);
  }

  lemma {:induction false} TurnShifted(fmt: Text, k: nat, x: Text, i: nat, args: seq<Arg>)
    requires Tail(fmt, k, x) && i < |x|
    ensures Turns(fmt)(k + i, args) == MovedTo(Turns(x)(i, args), k)
  {
    CharShifted(fmt, k, x, i);
    if x[i] == '%' {
      var d, e := PercentShifted(fmt, k, x, i, k + i, args);
    } else {
      PlainTurn(x, i, args, x[i]);
      PlainTurn(fmt, k + i, args, x[i]);
    }
  }

  lemma {:induction false} TurnsShifted(fmt: Text, k: nat, x: Text, turns: (nat, seq<Arg>) -> Turn,
                                        moved: (nat, seq<Arg>) -> Turn)
    requires Tail(fmt, k, x) && turns == Turns(x) && moved == Turns(fmt)
    ensures Shifts(|x|, turns, k, moved)
  {
    forall j: nat, more: seq<Arg> | j < |x|
      ensures moved(k + j, more) == MovedTo(turns(j, more), k)
    {
      TurnShifted(fmt, k, x, j, more);
    }
  }

  lemma {:induction false} RenderShifted(fmt: Text, k: nat, x: Text, args: seq<Arg>)
    requires Tail(fmt, k, x)
    ensures Render(fmt, k, args) == Render(x, 0, args)
  {
    TurnsShifted(fmt, k, x, Turns(x), Turns(fmt));
    RenderRuns(fmt, k, args);
    RenderRuns(x, 0, args);
    RunAt(|x|, Turns(x), k, Turns(fmt), |fmt|, args, Render(x, 0, args), Render(fmt, k, args));
  }

  // ------------------------------------------------------------------- sequences

  /** The arguments that a format leaves. */
  function Unused(fmt: Text, i: nat, args: seq<Arg>): seq<Arg>
    decreases if i < |fmt| then |fmt| - i else 0
  {
    if i >= |fmt| then args
    else if fmt[i] != '%' then Unused(fmt, i + 1, args)
    else
      match Directive(fmt, i + 1, args)
      case None => args
      case Some(d) => Unused(fmt, d.1, d.2)
  }

  lemma ConsTwice(t: Text, u: Text, rest: Option<Text>)
    ensures Cons(t, Cons(u, rest)) == Cons(t + u, rest)
  {
    if rest.Some? { Regroup(t, u, rest.value); }
  }

  lemma {:induction false} RenderFirst(x: Text, rest: Text, i: nat, args: seq<Arg>, more: seq<Arg>)
    requires i <= |x| && Render(x, i, args).Some?
    ensures Render(x + rest, i, args + more)
         == Cons(Render(x, i, args).value, Render(rest, 0, Unused(x, i, args) + more))
    decreases |x| - i
  {
    var after := Render(rest, 0, Unused(x, i, args) + more);
    if i == |x| {
      assert (x + rest)[|x|..] == rest;
      RenderShifted(x + rest, |x|, rest, args + more);
      if after.Some? { Emptys(after.value); }
    } else if x[i] != '%' {
      RenderFirst(x, rest, i + 1, args, more);
      ConsTwice([x[i]], Render(x, i + 1, args).value, after);
    } else {
      var d := Directive(x, i + 1, args).value;
      DirectiveWithin(x, rest, i + 1, args, more);
      RenderFirst(x, rest, d.1, d.2, more);
      ConsTwice(d.0, Render(x, d.1, d.2).value, after);
    }
  }

  /** Two formats one after the other print what each prints with its arguments. */
  lemma {:induction false} InSequence(x: Text, rest: Text, args: seq<Arg>, more: seq<Arg>)
    requires Render(x, 0, args).Some? && Unused(x, 0, args) == []
    ensures Render(x + rest, 0, args + more) == Cons(Render(x, 0, args).value, Render(rest, 0, more))
  {
    RenderFirst(x, rest, 0, args, more);
    Emptys(more);
  }

  lemma {:induction false} PlainFrom(t: Text, i: nat, args: seq<Arg>)
    requires i <= |t| && '%' !in t
    ensures Render(t, i, args) == Some(t[i..]) && Unused(t, i, args) == args
    decreases |t| - i
  {
    if i < |t| {
      assert t[i] in t;
      PlainFrom(t, i + 1, args);
      assert [t[i]] + t[i + 1..] == t[i..];
    } else {
      assert t[i..] == "";
    }
  }

  /** A text without % prints itself, whatever comes after it. */
  lemma {:induction false} PlainText(t: Text, rest: Text, args: seq<Arg>)
    requires '%' !in t
    ensures Render(t, 0, args) == Some(t)
    ensures Render(t + rest, 0, args) == Cons(t, Render(rest, 0, args))
  {
    PlainFrom(t, 0, []);
    PlainFrom(t, 0, args);
    assert t[0..] == t;
    InSequence(t, rest, [], args);
    Emptys(args);
  }
}
