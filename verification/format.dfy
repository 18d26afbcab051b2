/** Go's `fmt.Sprintf` for the two directives the administration templates
    use, `%s` and `%%`, including what Go prints when the number of
    arguments does not match the number of `%s` directives. */
module Format {

  /** Printed for a `%s` that has no argument left. */
  const Missing: string := "%!s(MISSING)"

  /** Every `%` in the template starts `%s` or `%%`. */
  predicate WellFormed(f: string)
    decreases |f|
  {
    if |f| == 0 then true
    else if f[0] != '%' then WellFormed(f[1..])
    else |f| >= 2 && (f[1] == 's' || f[1] == '%') && WellFormed(f[2..])
  }

  predicate NoPercent(t: string) {
    forall k :: 0 <= k < |t| ==> t[k] != '%'
  }

  /** The number of `%s` directives in a template. */
  function HoleCount(f: string): nat
    requires WellFormed(f)
    decreases |f|
  {
    if |f| == 0 then 0
    else if f[0] != '%' then HoleCount(f[1..])
    else if f[1] == '%' then HoleCount(f[2..])
    else 1 + HoleCount(f[2..])
  }

  /** What Go appends for arguments no directive consumed:
      `%!(EXTRA string=a, string=b)`. */
  function Extra(args: seq<string>): string {
    if |args| == 0 then "" else "%!(EXTRA " + ExtraItems(args) + ")"
  }

  function ExtraItems(args: seq<string>): string
    requires |args| > 0
  {
    if |args| == 1 then "string=" + args[0]
    else "string=" + args[0] + ", " + ExtraItems(args[1..])
  }

  /** `fmt.Sprintf(f, args...)` with string arguments. */
  function Sprintf(f: string, args: seq<string>): string
    requires WellFormed(f)
    decreases |f|
  {
    if |f| == 0 then Extra(args)
    else if f[0] != '%' then [f[0]] + Sprintf(f[1..], args)
    else if f[1] == '%' then "%" + Sprintf(f[2..], args)
    else if |args| == 0 then Missing + Sprintf(f[2..], [])
    else args[0] + Sprintf(f[2..], args[1..])
  }

  /** Text without `%` is copied through unchanged. */
  lemma {:induction false} SprintfText(t: string, rest: string, args: seq<string>)
    requires NoPercent(t)
    ensures WellFormed(t + rest) <==> WellFormed(rest)
    ensures WellFormed(rest) ==> Sprintf(t + rest, args) == t + Sprintf(rest, args)
  {
    if |t| > 0 {
      var s := t + rest;
      assert s[0] == t[0] && s[1..] == t[1..] + rest;
      SprintfText(t[1..], rest, args);
      if WellFormed(rest) {
        var tail := Sprintf(rest, args);
        assert Sprintf(s, args) == [t[0]] + (t[1..] + tail);
        assert [t[0]] + (t[1..] + tail) == t + tail;
      }
    } else {
      assert t + rest == rest;
    }
  }

  lemma SprintfHole(rest: string, a: string, args: seq<string>)
    requires WellFormed(rest)
    ensures WellFormed("%s" + rest) && HoleCount("%s" + rest) == 1 + HoleCount(rest)
    ensures Sprintf("%s" + rest, [a] + args) == a + Sprintf(rest, args)
  {
    assert ("%s" + rest)[2..] == rest;
    assert ([a] + args)[1..] == args;
  }

  lemma SprintfPercent(rest: string, args: seq<string>)
    requires WellFormed(rest)
    ensures WellFormed("%%" + rest) && HoleCount("%%" + rest) == HoleCount(rest)
    ensures Sprintf("%%" + rest, args) == "%" + Sprintf(rest, args)
  {
    assert ("%%" + rest)[2..] == rest;
  }

  // ---------------------------------------------------------------------
  // The shapes of the administration templates, for any literal pieces.

  /** `t0 %s`. */
  lemma OneHole(t0: string, a: string)
    requires NoPercent(t0)
    ensures WellFormed(t0 + "%s")
    ensures Sprintf(t0 + "%s", [a]) == t0 + a
  {
    SprintfHole("", a, []);
    assert "%s" + "" == "%s" && a + "" == a;
    SprintfText(t0, "%s", [a]);
  }

  /** `t0 %s t1 %s`. */
  lemma TwoHoles(t0: string, t1: string, a: string, b: string)
    requires NoPercent(t0) && NoPercent(t1)
    ensures WellFormed(t0 + ("%s" + (t1 + "%s")))
    ensures Sprintf(t0 + ("%s" + (t1 + "%s")), [a, b]) == t0 + (a + (t1 + b))
  {
    OneHole(t1, b);
    SprintfHole(t1 + "%s", a, [b]);
    assert [a] + [b] == [a, b];
    SprintfText(t0, "%s" + (t1 + "%s"), [a, b]);
  }

  /** `t0 %s t1 %% t2 %s`. */
  lemma TwoHolesPercent(t0: string, t1: string, t2: string, a: string, b: string)
    requires NoPercent(t0) && NoPercent(t1) && NoPercent(t2)
    ensures WellFormed(t0 + ("%s" + (t1 + ("%%" + (t2 + "%s")))))
    ensures Sprintf(t0 + ("%s" + (t1 + ("%%" + (t2 + "%s")))), [a, b]) == t0 + (a + (t1 + ("%" + (t2 + b))))
  {
    var r2 := t2 + "%s";
    var r3 := "%%" + r2;
    var r4 := t1 + r3;
    OneHole(t2, b);
    SprintfPercent(r2, [b]);
    SprintfText(t1, r3, [b]);
    SprintfHole(r4, a, [b]);
    assert [a] + [b] == [a, b];
    SprintfText(t0, "%s" + r4, [a, b]);
  }
}
