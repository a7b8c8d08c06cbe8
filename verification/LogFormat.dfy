/** The little format language of the logger: '%' stands for the next argument, "%%" for a percent
    sign, read greedily from the left. */
module LogFormat {

  datatype Token = Lit(c: char) | Hole

  /** One element of the log queue. */
  datatype LogElement =
    | CHAR(c: char)
    | INTEGER(i: int)
    | LONG_INTEGER(l: int)
    | LONG_LONG_INTEGER(ll: int)
    | UNSIGNED_INTEGER(u: nat)
    | UNSIGNED_LONG_INTEGER(ul: nat)
    | UNSIGNED_LONG_LONG_INTEGER(ull: nat)
    | FLOAT(f: real)
    | DOUBLE(d: real)

  /** An argument of log: a value pushed as one element, or a text pushed character by character. */
  datatype Arg = Scalar(e: LogElement) | Text(s: string)

  datatype Status = Done | MissingArgs | ExtraArgs

  datatype Outcome = Outcome(pushed: seq<LogElement>, status: Status)

  const NUL: char := '\0'

  /** A C string ends at its first NUL. */
  function CString(s: string): (t: string)
    ensures NUL !in t
  {
    if s == [] || s[0] == NUL then [] else [s[0]] + CString(s[1..])
  }

  function Chars(s: string): (es: seq<LogElement>)
    ensures |es| == |s|
  {
    seq(|s|, i requires 0 <= i < |s| => CHAR(s[i]))
  }

  function Elements(a: Arg): seq<LogElement> {
    match a
    case Scalar(e) => [e]
    case Text(s) => Chars(CString(s))
  }

  function Parse(f: string): seq<Token> {
    if f == [] then []
    else if f[0] != '%' then [Lit(f[0])] + Parse(f[1..])
    else if |f| > 1 && f[1] == '%' then [Lit('%')] + Parse(f[2..])
    else [Hole] + Parse(f[1..])
  }

  function Prepend(es: seq<LogElement>, o: Outcome): Outcome {
    o.(pushed := es + o.pushed)
  }

  /** What logging these tokens with these arguments pushes, and how it ends. */
  function Logged(ts: seq<Token>, args: seq<Arg>): Outcome {
    if ts == [] then Outcome([], if args == [] then Done else ExtraArgs)
    else match ts[0]
      case Lit(c) => Prepend([CHAR(c)], Logged(ts[1..], args))
      case Hole => if args == [] then Outcome([], MissingArgs)
                   else Prepend(Elements(args[0]), Logged(ts[1..], args[1..]))
  }

  // ----- what a log call means -----

  function Holes(ts: seq<Token>): nat {
    if ts == [] then 0 else (if ts[0].Hole? then 1 else 0) + Holes(ts[1..])
  }

  /** The tokens with every placeholder replaced by the elements of its argument. */
  function Filled(ts: seq<Token>, args: seq<Arg>): seq<LogElement>
    requires Holes(ts) == |args|
  {
    if ts == [] then []
    else match ts[0]
      case Lit(c) => [CHAR(c)] + Filled(ts[1..], args)
      case Hole => Elements(args[0]) + Filled(ts[1..], args[1..])
  }

  /** Log completes exactly when there are as many placeholders as arguments, and then pushes the
      format with the placeholders filled; otherwise it says which of the two there are more of. */
  lemma {:induction false} LogCompletes(ts: seq<Token>, args: seq<Arg>)
    ensures Logged(ts, args).status == if Holes(ts) == |args| then Done
                                       else if Holes(ts) > |args| then MissingArgs else ExtraArgs
    ensures Holes(ts) == |args| ==> Logged(ts, args).pushed == Filled(ts, args)
    decreases |ts|
  {
    if ts != [] {
      if ts[0].Hole? && args != [] {
        LogCompletes(ts[1..], args[1..]);
      } else {
        LogCompletes(ts[1..], args);
      }
    }
  }

  // ----- where everything pushed is -----

  /** Number of elements an argument takes: one for a value, one for each character of a text in
      front of its NUL. */
  function Width(a: Arg): nat {
    match a
    case Scalar(_) => 1
    case Text(s) => TextWidth(s)
  }

  function TextWidth(s: string): (n: nat)
    ensures n <= |s| && (n < |s| ==> s[n] == NUL) && forall k :: 0 <= k < n ==> s[k] != NUL
  {
    if s == [] || s[0] == NUL then 0 else 1 + TextWidth(s[1..])
  }

  /** How many tokens are pushed: all, or those in front of the placeholder that has no argument. */
  function Reached(ts: seq<Token>, n: nat): (k: nat)
    ensures k <= |ts|
  {
    if ts == [] || (ts[0].Hole? && n == 0) then 0
    else 1 + Reached(ts[1..], if ts[0].Hole? then n - 1 else n)
  }

  /** Where the elements of token k begin. */
  function Offset(ts: seq<Token>, args: seq<Arg>, k: nat): nat
    requires k <= Reached(ts, |args|)
  {
    if k == 0 then 0
    else match ts[0]
      case Lit(_) => 1 + Offset(ts[1..], args, k - 1)
      case Hole => Width(args[0]) + Offset(ts[1..], args[1..], k - 1)
  }

  /** Positions from `at` on hold the argument: the value, or the characters of the text. */
  ghost predicate HoldsArg(es: seq<LogElement>, at: nat, a: Arg) {
    && at + Width(a) <= |es|
    && match a
       case Scalar(e) => es[at] == e
       case Text(s) => forall j :: 0 <= j < TextWidth(s) ==> es[at + j] == CHAR(s[j])
  }

  /** Token k, a literal or a placeholder for its own argument, is where it belongs. */
  ghost predicate HoldsToken(ts: seq<Token>, args: seq<Arg>, es: seq<LogElement>, k: nat)
    requires k < Reached(ts, |args|)
  {
    var at := Offset(ts, args, k);
    match ts[k]
    case Lit(c) => at < |es| && es[at] == CHAR(c)
    case Hole => Holes(ts[..k]) < |args| && HoldsArg(es, at, args[Holes(ts[..k])])
  }

  /** The elements are the literals and the arguments in the places of the tokens, and no more. */
  ghost predicate Spells(ts: seq<Token>, args: seq<Arg>, es: seq<LogElement>) {
    && |es| == Offset(ts, args, Reached(ts, |args|))
    && forall k :: 0 <= k < Reached(ts, |args|) ==> HoldsToken(ts, args, es, k)
  }

  lemma {:induction false} CStringIs(s: string)
    ensures CString(s) == s[..TextWidth(s)]
  {
    if s != [] && s[0] != NUL {
      CStringIs(s[1..]);
    }
  }

  lemma ElementsHold(a: Arg, rest: seq<LogElement>)
    ensures |Elements(a)| == Width(a) && HoldsArg(Elements(a) + rest, 0, a)
  {
    if a.Text? {
      CStringIs(a.s);
    }
  }

  lemma HoldsShifted(es: seq<LogElement>, front: seq<LogElement>, at: nat, a: Arg)
    requires HoldsArg(es, at, a)
    ensures HoldsArg(front + es, |front| + at, a)
  {
    if a.Text? {
      forall j | 0 <= j < TextWidth(a.s) ensures (front + es)[|front| + at + j] == CHAR(a.s[j]) {
        assert es[at + j] == CHAR(a.s[j]);
      }
    }
  }

  /** Behind a first token, offsets and placeholders count on from it. */
  lemma PlaceShifted(ts: seq<Token>, args: seq<Arg>, k: nat)
    requires ts != [] && (ts[0].Hole? ==> args != []) && 1 <= k < Reached(ts, |args|)
    ensures var rest := if ts[0].Hole? then args[1..] else args;
            && k - 1 < Reached(ts[1..], |rest|)
            && Offset(ts, args, k) == (if ts[0].Hole? then Width(args[0]) else 1) + Offset(ts[1..], rest, k - 1)
            && Holes(ts[..k]) == (if ts[0].Hole? then 1 else 0) + Holes(ts[1..][..k - 1])
            && ts[k] == ts[1..][k - 1]
  {
    assert ts[..k][1..] == ts[1..][..k - 1];
  }

  /** A token keeps its place when elements for a first token are put in front. */
  lemma TokenShifted(ts: seq<Token>, args: seq<Arg>, front: seq<LogElement>, es: seq<LogElement>, k: nat)
    requires ts != [] && (ts[0].Hole? ==> args != []) && 1 <= k < Reached(ts, |args|)
    requires |front| == if ts[0].Hole? then Width(args[0]) else 1
    requires HoldsToken(ts[1..], if ts[0].Hole? then args[1..] else args, es, k - 1)
    ensures HoldsToken(ts, args, front + es, k)
  {
    hide HoldsArg, Width, Offset, Holes, Reached;
    PlaceShifted(ts, args, k);
    var rest := if ts[0].Hole? then args[1..] else args;
    var at := Offset(ts[1..], rest, k - 1);
    match ts[k]
    case Lit(_) =>
      assert (front + es)[|front| + at] == es[at];
    case Hole =>
      HoldsShifted(es, front, at, rest[Holes(ts[1..][..k - 1])]);
  }

  /** Whatever the arguments, log pushes every literal and every argument in its place, up to the
      end of the format or the placeholder that has no argument. */
  lemma {:induction false} LogSpells(ts: seq<Token>, args: seq<Arg>)
    ensures Spells(ts, args, Logged(ts, args).pushed)
    decreases |ts|
  {
    hide HoldsToken;
    if ts != [] && (ts[0].Hole? ==> args != []) {
      var rest := if ts[0].Hole? then args[1..] else args;
      var front := if ts[0].Hole? then Elements(args[0]) else [CHAR(ts[0].c)];
      var es := Logged(ts[1..], rest).pushed;
      LogSpells(ts[1..], rest);
      FirstHolds(ts, args, es);
      forall k | 1 <= k < Reached(ts, |args|) ensures HoldsToken(ts, args, front + es, k) {
        TokenShifted(ts, args, front, es, k);
      }
    }
  }

  lemma FirstHolds(ts: seq<Token>, args: seq<Arg>, es: seq<LogElement>)
    requires ts != [] && (ts[0].Hole? ==> args != [])
    ensures var front := if ts[0].Hole? then Elements(args[0]) else [CHAR(ts[0].c)];
            && |front| == (if ts[0].Hole? then Width(args[0]) else 1)
            && HoldsToken(ts, args, front + es, 0)
  {
    assert ts[..0] == [];
    if ts[0].Hole? {
      ElementsHold(args[0], es);
    }
  }

  lemma {:induction false} ScalarOffset(ts: seq<Token>, args: seq<Arg>, k: nat)
    requires k <= Reached(ts, |args|) && forall i :: 0 <= i < |args| ==> args[i].Scalar?
    ensures Offset(ts, args, k) == k
  {
    if k > 0 {
      ScalarOffset(ts[1..], if ts[0].Hole? then args[1..] else args, k - 1);
    }
  }

  /** As many values as placeholders: one element for each token, the literal or the value. */
  lemma ScalarsInPlace(ts: seq<Token>, args: seq<Arg>)
    requires Holes(ts) == |args| && forall i :: 0 <= i < |args| ==> args[i].Scalar?
    ensures var es := Logged(ts, args).pushed;
            && |es| == |ts|
            && forall k :: 0 <= k < |ts| ==>
                 match ts[k]
                 case Lit(c) => es[k] == CHAR(c)
                 case Hole => Holes(ts[..k]) < |args| && es[k] == args[Holes(ts[..k])].e
  {
    var es := Logged(ts, args).pushed;
    LogSpells(ts, args);
    AllReached(ts, |args|);
    ScalarOffset(ts, args, |ts|);
    forall k | 0 <= k < |ts| ensures match ts[k]
      case Lit(c) => es[k] == CHAR(c)
      case Hole => Holes(ts[..k]) < |args| && es[k] == args[Holes(ts[..k])].e
    {
      ScalarOffset(ts, args, k);
      assert HoldsToken(ts, args, es, k);
    }
  }

  /** With as many arguments as placeholders, or more, every token is reached. */
  lemma {:induction false} AllReached(ts: seq<Token>, n: nat)
    ensures Holes(ts) <= n <==> Reached(ts, n) == |ts|
  {
    if ts != [] && (ts[0].Hole? ==> n > 0) {
      AllReached(ts[1..], if ts[0].Hole? then n - 1 else n);
    }
  }

  /** Every percent sign doubled. */
  function Escape(t: string): string {
    if t == [] then [] else (if t[0] == '%' then "%%" else [t[0]]) + Escape(t[1..])
  }

  function Literals(t: string): seq<Token> {
    seq(|t|, i requires 0 <= i < |t| => Lit(t[i]))
  }

  lemma {:induction false} EscapeParses(t: string)
    ensures Parse(Escape(t)) == Literals(t)
  {
    if t != [] {
      EscapeParses(t[1..]);
      var e := Escape(t);
      assert Literals(t) == [Lit(t[0])] + Literals(t[1..]);
      if t[0] == '%' {
        assert e[2..] == Escape(t[1..]);
      } else {
        assert e[1..] == Escape(t[1..]);
      }
    }
  }

  lemma {:induction false} LiteralsLog(t: string)
    ensures Logged(Literals(t), []) == Outcome(Chars(t), Done)
  {
    if t != [] {
      LiteralsLog(t[1..]);
      assert Literals(t)[1..] == Literals(t[1..]);
      assert Chars(t) == [CHAR(t[0])] + Chars(t[1..]);
    } else {
      assert Literals(t) == [];
    }
  }

  lemma {:induction false} CStringWhole(t: string)
    requires NUL !in t
    ensures CString(t) == t
  {
    if t != [] {
      assert NUL !in t[1..];
      CStringWhole(t[1..]);
    }
  }

  lemma {:induction false} EscapeKeepsNulFree(t: string)
    requires NUL !in t
    ensures NUL !in Escape(t)
  {
    if t != [] {
      EscapeKeepsNulFree(t[1..]);
    }
  }

  /** Any text without NUL comes back from the log when its percent signs are doubled. */
  lemma EscapeRoundTrip(t: string)
    requires NUL !in t
    ensures Logged(Parse(CString(Escape(t))), []) == Outcome(Chars(t), Done)
  {
    EscapeKeepsNulFree(t);
    CStringWhole(Escape(t));
    EscapeParses(t);
    LiteralsLog(t);
  }

  // ----- what a format can say -----

  /** The obvious spelling of a token sequence. */
  function Unparse(ts: seq<Token>): string {
    if ts == [] then []
    else (match ts[0] case Hole => "%" case Lit(c) => if c == '%' then "%%" else [c]) + Unparse(ts[1..])
  }

  /** No placeholder is directly followed by a placeholder or by a percent sign. */
  ghost predicate Spaced(ts: seq<Token>) {
    forall i :: 0 <= i < |ts| - 1 && ts[i].Hole? ==> ts[i + 1].Lit? && ts[i + 1].c != '%'
  }

  lemma SpacedTail(ts: seq<Token>)
    requires ts != []
    ensures Spaced(ts) <==> Spaced(ts[1..]) && (ts[0].Hole? && |ts| > 1 ==> ts[1].Lit? && ts[1].c != '%')
  {
    if Spaced(ts[1..]) && (ts[0].Hole? && |ts| > 1 ==> ts[1].Lit? && ts[1].c != '%') {
      forall i | 0 <= i < |ts| - 1 && ts[i].Hole? ensures ts[i + 1].Lit? && ts[i + 1].c != '%' {
        if i > 0 {
          assert ts[1..][i - 1].Hole?;
        }
      }
    }
    if Spaced(ts) {
      forall i | 0 <= i < |ts[1..]| - 1 && ts[1..][i].Hole? ensures ts[1..][i + 1].Lit? && ts[1..][i + 1].c != '%' {
        assert ts[i + 1].Hole?;
      }
    }
  }

  /** What a parse starts with shows in the text. */
  lemma ParseHead(f: string)
    ensures Parse(f) == [] <==> f == []
    ensures f != [] ==> (f[0] == '%' <==> Parse(f)[0].Hole? || Parse(f)[0] == Lit('%'))
  {
  }

  /** Spelling out what was parsed gives the format back. */
  lemma {:induction false} ParseUnparses(f: string)
    ensures Unparse(Parse(f)) == f
    decreases |f|
  {
    if f != [] {
      ParseUnparses(if f[0] == '%' && |f| > 1 && f[1] == '%' then f[2..] else f[1..]);
    }
  }

  /** Every format parses to a spaced sequence: two placeholders in a row, or a placeholder in
      front of a percent sign, cannot be written. */
  lemma {:induction false} ParseIsSpaced(f: string)
    ensures Spaced(Parse(f))
    decreases |f|
  {
    if f != [] {
      var rest := if f[0] == '%' && |f| > 1 && f[1] == '%' then f[2..] else f[1..];
      ParseIsSpaced(rest);
      ParseHead(rest);
      assert Parse(f)[1..] == Parse(rest);
      SpacedTail(Parse(f));
    }
  }

  lemma UnparseHead(ts: seq<Token>)
    ensures Unparse(ts) == [] <==> ts == []
    ensures ts != [] ==> (Unparse(ts)[0] == '%' <==> ts[0].Hole? || ts[0] == Lit('%'))
  {
  }

  lemma {:induction false} UnparseParses(ts: seq<Token>)
    requires Spaced(ts)
    ensures Parse(Unparse(ts)) == ts
  {
    if ts != [] {
      SpacedTail(ts);
      UnparseParses(ts[1..]);
      UnparseHead(ts[1..]);
      var f := Unparse(ts);
      assert ts == [ts[0]] + ts[1..];
      if ts[0] == Lit('%') {
        assert f[2..] == Unparse(ts[1..]);
      } else {
        assert f[1..] == Unparse(ts[1..]);
      }
    }
  }

  /** A token sequence has a format exactly when it is spaced. */
  lemma Expressible(ts: seq<Token>)
    ensures (exists f: string :: Parse(f) == ts) <==> Spaced(ts)
  {
    if Spaced(ts) {
      UnparseParses(ts);
    }
    forall f: string | Parse(f) == ts ensures Spaced(ts) {
      ParseIsSpaced(f);
    }
  }
}
