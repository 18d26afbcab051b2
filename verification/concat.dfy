/** The `CONCAT(...)` expression the substitution protocol sends to the
    server. Go formats the template with one fragment per value; each
    fragment closes the current double-quoted literal, names a session
    variable, and opens the next literal. Read as MySQL reads it, the
    result is an argument list of literals and variable references. This
    module relates the two readings and gives the expression its value. */
module Concat {
  import opened Results
  import opened Lexer
  import opened Format

  /** A session variable named inside the expression: `@id`, or
      `QUOTE(@id)` when its value must become a string literal. */
  datatype Ref = Ref(id: string, quote: bool)

  function RefText(r: Ref): string {
    if r.quote then "QUOTE(@" + r.id + ")" else "@" + r.id
  }

  /** The text Go substitutes for one `%s`. */
  function Fragment(r: Ref): string {
    "\", " + (RefText(r) + ", \"")
  }

  /** The arguments of `CONCAT`: a literal, then pairs of a variable
      reference and the literal that follows it. */
  datatype Expr = Expr(head: string, tail: seq<(Ref, string)>)

  function JoinTail(t: seq<(Ref, string)>, g: Ref -> string): string {
    if |t| == 0 then "" else g(t[0].0) + (t[0].1 + JoinTail(t[1..], g))
  }

  /** The literals of `e` with each reference replaced by `g` of it. */
  function Join(e: Expr, g: Ref -> string): string {
    e.head + JoinTail(e.tail, g)
  }

  function PrependText(x: string, e: Expr): Expr {
    Expr(x + e.head, e.tail)
  }

  function ExtraTail(refs: seq<Ref>): seq<(Ref, string)>
    requires |refs| > 0
  {
    if |refs| == 1 then [(refs[0], ")")]
    else [(refs[0], ", string=")] + ExtraTail(refs[1..])
  }

  function ExtraExpr(refs: seq<Ref>): Expr {
    if |refs| == 0 then Expr("", []) else Expr("%!(EXTRA string=", ExtraTail(refs))
  }

  /** The expression MySQL sees once Go has formatted template `f` with
      the fragments of `refs`. */
  function Build(f: string, refs: seq<Ref>): Expr
    requires Format.WellFormed(f)
    decreases |f|
  {
    if |f| == 0 then ExtraExpr(refs)
    else if f[0] != '%' then PrependText([f[0]], Build(f[1..], refs))
    else if f[1] == '%' then PrependText("%", Build(f[2..], refs))
    else if |refs| == 0 then PrependText(Missing, Build(f[2..], []))
    else
      var e := Build(f[2..], refs[1..]);
      Expr("", [(refs[0], e.head)] + e.tail)
  }

  function MapRefs(refs: seq<Ref>, g: Ref -> string): (r: seq<string>)
    ensures |r| == |refs|
    ensures forall i :: 0 <= i < |refs| ==> r[i] == g(refs[i])
  {
    seq(|refs|, i requires 0 <= i < |refs| => g(refs[i]))
  }

  lemma MapRefsSnoc(refs: seq<Ref>, i: nat, g: Ref -> string)
    requires i < |refs|
    ensures MapRefs(refs[..i + 1], g) == MapRefs(refs[..i], g) + [g(refs[i])]
  {
  }

  lemma JoinPrepend(x: string, e: Expr, g: Ref -> string)
    ensures Join(PrependText(x, e), g) == x + Join(e, g)
  {
  }

  lemma {:induction false} ExtraItemsIsJoin(refs: seq<Ref>, g: Ref -> string)
    requires |refs| > 0
    ensures "string=" + JoinTail(ExtraTail(refs), g) == ExtraItems(MapRefs(refs, g)) + ")"
  {
    var args := MapRefs(refs, g);
    if |refs| == 1 {
      assert JoinTail(ExtraTail(refs), g) == g(refs[0]) + ")";
    } else {
      ExtraItemsIsJoin(refs[1..], g);
      assert args[1..] == MapRefs(refs[1..], g);
      var t := ExtraTail(refs[1..]);
      var jt := JoinTail(t, g);
      assert ([(refs[0], ", string=")] + t)[1..] == t;
      assert JoinTail(ExtraTail(refs), g) == g(refs[0]) + ", string=" + jt;
      assert ExtraItems(args) == "string=" + args[0] + ", " + ExtraItems(args[1..]);
      assert "string=" + jt == ExtraItems(args[1..]) + ")";
      calc {
        "string=" + JoinTail(ExtraTail(refs), g);
        "string=" + g(refs[0]) + ", " + ("string=" + jt);
        "string=" + g(refs[0]) + ", " + (ExtraItems(args[1..]) + ")");
        ExtraItems(args) + ")";
      }
    }
  }

  lemma ExtraIsJoin(refs: seq<Ref>, g: Ref -> string)
    ensures Extra(MapRefs(refs, g)) == Join(ExtraExpr(refs), g)
  {
    var args := MapRefs(refs, g);
    if |refs| == 0 {
      assert args == [];
    } else {
      ExtraItemsIsJoin(refs, g);
      var jt := JoinTail(ExtraTail(refs), g);
      calc {
        Join(ExtraExpr(refs), g);
        "%!(EXTRA string=" + jt;
        "%!(EXTRA " + ("string=" + jt);
        "%!(EXTRA " + (ExtraItems(args) + ")");
        Extra(args);
      }
    }
  }

  /** Formatting the template with any per-reference text is the same as
      joining the built expression with that text. With `Fragment` this
      is the string Go sends; with the variables' values it is the string
      the server computes. */
  lemma {:induction false} SprintfIsJoin(f: string, refs: seq<Ref>, g: Ref -> string)
    requires Format.WellFormed(f)
    ensures Sprintf(f, MapRefs(refs, g)) == Join(Build(f, refs), g)
    decreases |f|
  {
    var args := MapRefs(refs, g);
    if |f| == 0 {
      ExtraIsJoin(refs, g);
    } else if f[0] != '%' {
      SprintfIsJoin(f[1..], refs, g);
      JoinPrepend([f[0]], Build(f[1..], refs), g);
    } else if f[1] == '%' {
      SprintfIsJoin(f[2..], refs, g);
      JoinPrepend("%", Build(f[2..], refs), g);
    } else if |refs| == 0 {
      SprintfIsJoin(f[2..], [], g);
      JoinPrepend(Missing, Build(f[2..], []), g);
    } else {
      SprintfIsJoin(f[2..], refs[1..], g);
      assert args[1..] == MapRefs(refs[1..], g);
      var e := Build(f[2..], refs[1..]);
      assert Join(Build(f, refs), g) == g(refs[0]) + e.head + JoinTail(e.tail, g);
    }
  }

  // ---------------------------------------------------------------------
  // Reading the expression back, as MySQL's parser does.

  /** Characters a double-quoted literal can hold without changing meaning:
      no closing quote and no escape sequence. */
  predicate SafeLiteralChar(c: char) {
    c != '"' && c != '\\'
  }

  predicate SafeLiteral(t: string) {
    forall k :: 0 <= k < |t| ==> SafeLiteralChar(t[k])
  }

  lemma SafeLiteralAppend(a: string, b: string)
    ensures SafeLiteral(a + b) <==> SafeLiteral(a) && SafeLiteral(b)
  {
    if SafeLiteral(a) && SafeLiteral(b) {
      forall k | 0 <= k < |a + b| ensures SafeLiteralChar((a + b)[k]) {
        if k >= |a| {
          assert (a + b)[k] == b[k - |a|];
        }
      }
    }
    if SafeLiteral(a + b) {
      forall k | 0 <= k < |a| ensures SafeLiteralChar(a[k]) {
        assert (a + b)[k] == a[k];
      }
      forall k | 0 <= k < |b| ensures SafeLiteralChar(b[k]) {
        assert (a + b)[|a| + k] == b[k];
      }
    }
  }

  predicate WellFormedExpr(e: Expr) {
    && SafeLiteral(e.head)
    && forall i :: 0 <= i < |e.tail| ==> IsIdentifier(e.tail[i].0.id) && SafeLiteral(e.tail[i].1)
  }

  function LiteralLength(s: string): (n: nat)
    ensures n <= |s|
    ensures SafeLiteral(s[..n])
    ensures n < |s| ==> !SafeLiteralChar(s[n])
  {
    if |s| == 0 || !SafeLiteralChar(s[0]) then 0
    else
      var n := 1 + LiteralLength(s[1..]);
      assert s[..n] == [s[0]] + s[1..][..n - 1];
      n
  }

  function IdentLength(s: string): (n: nat)
    ensures n <= |s|
    ensures forall k :: 0 <= k < n ==> IsIdentChar(s[k])
    ensures n < |s| ==> !IsIdentChar(s[n])
  {
    if |s| == 0 || !IsIdentChar(s[0]) then 0 else 1 + IdentLength(s[1..])
  }

  /** Reads `@id` or `QUOTE(@id)` at the start of `s`. */
  function ParseRef(s: string): (r: Option<(Ref, string)>)
    ensures r.Some? ==> |r.value.1| < |s|
  {
    if |s| >= 7 && s[..7] == "QUOTE(@" then
      var k := IdentLength(s[7..]);
      if 0 < k && 7 + k < |s| && s[7 + k] == ')' then Some((Ref(s[7..7 + k], true), s[8 + k..]))
      else None
    else if |s| >= 1 && s[0] == '@' then
      var k := IdentLength(s[1..]);
      if 0 < k then Some((Ref(s[1..1 + k], false), s[1 + k..])) else None
    else None
  }

  /** Reads the text between `CONCAT("` and the final `")` into its
      arguments; `None` for text outside this grammar. */
  function ParseBody(s: string): (r: Option<Expr>)
    decreases |s|
  {
    var n := LiteralLength(s);
    if n == |s| then Some(Expr(s, []))
    else if !(|s| >= n + 3 && s[n..n + 3] == "\", ") then None
    else
      match ParseRef(s[n + 3..])
      case None => None
      case Some((r, after)) =>
        if |after| >= 3 && after[..3] == ", \"" then
          match ParseBody(after[3..])
          case None => None
          case Some(e) => Some(Expr(s[..n], [(r, e.head)] + e.tail))
        else None
  }

  lemma {:induction false} LiteralLengthOf(t: string, x: string)
    requires SafeLiteral(t)
    requires |x| == 0 || !SafeLiteralChar(x[0])
    ensures LiteralLength(t + x) == |t|
  {
    if |t| > 0 {
      assert (t + x)[1..] == t[1..] + x;
      LiteralLengthOf(t[1..], x);
    } else {
      assert t + x == x;
    }
  }

  lemma {:induction false} IdentLengthOf(id: string, x: string)
    requires forall k :: 0 <= k < |id| ==> IsIdentChar(id[k])
    requires |x| > 0 && !IsIdentChar(x[0])
    ensures IdentLength(id + x) == |id|
  {
    if |id| > 0 {
      assert (id + x)[1..] == id[1..] + x;
      IdentLengthOf(id[1..], x);
    } else {
      assert id + x == x;
    }
  }

  lemma ParseRefQuoted(id: string, y: string)
    requires IsIdentifier(id)
    requires |y| > 0 && !IsIdentChar(y[0])
    ensures ParseRef("QUOTE(@" + id + ")" + y) == Some((Ref(id, true), y))
  {
    var s := "QUOTE(@" + id + ")" + y;
    var u := id + (")" + y);
    var k := |id|;
    assert s == "QUOTE(@" + u;
    assert s[..7] == "QUOTE(@" && s[7..] == u;
    IdentLengthOf(id, ")" + y);
    assert u[k] == ')' && u[..k] == id && u[k + 1..] == y;
    assert s[7..7 + k] == u[..k];
    assert s[8 + k..] == u[k + 1..];
  }

  lemma ParseRefPlain(id: string, y: string)
    requires IsIdentifier(id)
    requires |y| > 0 && !IsIdentChar(y[0])
    ensures ParseRef("@" + id + y) == Some((Ref(id, false), y))
  {
    var s := "@" + id + y;
    var u := id + y;
    var k := |id|;
    assert s == "@" + u;
    assert s[0] == '@' && s[1..] == u;
    assert !(|s| >= 7 && s[..7] == "QUOTE(@") by {
      if |s| >= 7 {
        assert s[..7][0] == '@';
      }
    }
    IdentLengthOf(id, y);
    assert u[..k] == id && u[k..] == y;
    assert s[1..1 + k] == u[..k];
    assert s[1 + k..] == u[k..];
  }

  lemma ParseRefText(r: Ref, y: string)
    requires IsIdentifier(r.id)
    requires |y| > 0 && !IsIdentChar(y[0])
    ensures ParseRef(RefText(r) + y) == Some((r, y))
  {
    if r.quote {
      ParseRefQuoted(r.id, y);
    } else {
      ParseRefPlain(r.id, y);
    }
  }

  /** One literal, one reference and whatever follows. */
  lemma ParseStep(h: string, r: Ref, rest: string)
    requires SafeLiteral(h) && IsIdentifier(r.id)
    ensures ParseBody(h + (Fragment(r) + rest)) ==
            match ParseBody(rest)
            case None => None
            case Some(e) => Some(Expr(h, [(r, e.head)] + e.tail))
  {
    var y := ", \"" + rest;
    var afterLit := Fragment(r) + rest;
    assert afterLit == "\", " + (RefText(r) + y);
    var s := h + afterLit;
    LiteralLengthOf(h, afterLit);
    var n := |h|;
    assert s[..n] == h;
    assert s[n..n + 3] == "\", ";
    assert s[n + 3..] == RefText(r) + y;
    ParseRefText(r, y);
    assert y[..3] == ", \"" && y[3..] == rest;
  }

  /** The rest of a well-formed expression after its first reference. */
  lemma WellFormedRest(e: Expr)
    requires WellFormedExpr(e) && |e.tail| > 0
    ensures IsIdentifier(e.tail[0].0.id)
    ensures WellFormedExpr(Expr(e.tail[0].1, e.tail[1..]))
  {
    var e' := Expr(e.tail[0].1, e.tail[1..]);
    forall i | 0 <= i < |e'.tail|
      ensures IsIdentifier(e'.tail[i].0.id) && SafeLiteral(e'.tail[i].1)
    {
      assert e'.tail[i] == e.tail[i + 1];
    }
  }

  /** The text Go builds is read back as exactly the expression it was
      built from: no literal ends early and no reference is misread. */
  lemma {:induction false} ParseJoin(e: Expr)
    requires WellFormedExpr(e)
    ensures ParseBody(Join(e, Fragment)) == Some(e)
    decreases |e.tail|
  {
    if |e.tail| == 0 {
      LiteralLengthOf(e.head, "");
      assert e.head + "" == e.head;
    } else {
      WellFormedRest(e);
      ParseJoin(Expr(e.tail[0].1, e.tail[1..]));
      ParseJoinStep(e);
    }
  }

  lemma ParseJoinStep(e: Expr)
    requires WellFormedExpr(e) && |e.tail| > 0
    requires ParseBody(Join(Expr(e.tail[0].1, e.tail[1..]), Fragment)) == Some(Expr(e.tail[0].1, e.tail[1..]))
    ensures ParseBody(Join(e, Fragment)) == Some(e)
  {
    var (r, l) := e.tail[0];
    var e' := Expr(l, e.tail[1..]);
    WellFormedRest(e);
    assert Join(e, Fragment) == e.head + (Fragment(r) + Join(e', Fragment));
    ParseStep(e.head, r, Join(e', Fragment));
    assert [(r, l)] + e.tail[1..] == e.tail;
  }

  /** Every literal of the built expression comes from the template or
      from Go's fixed decoration, and every reference from `refs`. */
  lemma {:induction false} BuildShape(f: string, refs: seq<Ref>)
    requires Format.WellFormed(f)
    requires SafeLiteral(f)
    ensures SafeLiteral(Build(f, refs).head)
    ensures forall i :: 0 <= i < |Build(f, refs).tail| ==>
              SafeLiteral(Build(f, refs).tail[i].1) && Build(f, refs).tail[i].0 in refs
    decreases |f|
  {
    if |f| == 0 {
      if |refs| > 0 {
        ExtraShape(refs);
      }
    } else if f[0] != '%' {
      BuildShape(f[1..], refs);
    } else if f[1] == '%' {
      BuildShape(f[2..], refs);
    } else if |refs| == 0 {
      BuildShape(f[2..], []);
    } else {
      BuildShape(f[2..], refs[1..]);
      var e := Build(f[2..], refs[1..]);
      assert Build(f, refs).tail == [(refs[0], e.head)] + e.tail;
    }
  }

  lemma {:induction false} ExtraShape(refs: seq<Ref>)
    requires |refs| > 0
    ensures forall i :: 0 <= i < |ExtraTail(refs)| ==>
              SafeLiteral(ExtraTail(refs)[i].1) && ExtraTail(refs)[i].0 in refs
  {
    if |refs| > 1 {
      ExtraShape(refs[1..]);
    }
  }

  // ---------------------------------------------------------------------
  // The value the server computes.

  /** The value of `@id` or `QUOTE(@id)` in a session whose user variables
      are `vars`. An unset variable is NULL, and `QUOTE(NULL)` is the
      four letters NULL. */
  function Deref(r: Ref, vars: map<string, string>): Option<string> {
    if r.id in vars then Some(if r.quote then Quote(vars[r.id]) else vars[r.id])
    else if r.quote then Some("NULL")
    else None
  }

  function ValueOf(r: Ref, vars: map<string, string>): string {
    match Deref(r, vars)
    case Some(v) => v
    case None => ""
  }

  predicate Defined(e: Expr, vars: map<string, string>) {
    forall i :: 0 <= i < |e.tail| ==> Deref(e.tail[i].0, vars).Some?
  }

  function Valuer(vars: map<string, string>): Ref -> string {
    r => ValueOf(r, vars)
  }

  /** `CONCAT(...)`: NULL as soon as one argument is NULL. */
  function Eval(e: Expr, vars: map<string, string>): (r: Option<string>)
    ensures r.Some? <==> Defined(e, vars)
  {
    if Defined(e, vars) then Some(Join(e, Valuer(vars))) else None
  }
}
