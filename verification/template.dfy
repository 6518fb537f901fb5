/**
 The command-template expander of `spawn` (src/media.c:226-261). A template
 is walked left to right: `%` followed by a character is an escape that
 consumes both characters, anything else (including a `%` in the last
 position) is copied. The geometry numbers are rounded with
 `(int)(v + 0.5)` and printed with `%d`.
 */
module Template {

  import opened Numeric
  import opened Geometry

  /** The characters `spawn`'s switch has a case for. */
  predicate KnownEscape(c: char) {
    c in "%sxXyYwWhH"
  }

  /**
   What the escape `%c` contributes: a percent sign, the payload, one of the
   four rounded geometry numbers in `%d` form, or nothing for an escape the
   switch does not list.
   */
  function EscapeText(c: char, payload: string, r: Rect): (out: string)
    ensures c == '%' ==> out == "%"
    ensures c == 's' ==> out == payload
    ensures !KnownEscape(c) ==> out == ""
  {
    if c == '%' then "%"
    else if c == 's' then payload
    else if KnownEscape(c) then DecimalText(GeometryValue(c, r))
    else ""
  }

  /** The number behind `%x`, `%y`, `%w` or `%h` (either case). */
  function GeometryValue(c: char, r: Rect): int {
    if c == 'x' || c == 'X' then Round(r.x1)
    else if c == 'y' || c == 'Y' then Round(r.y1)
    else if c == 'w' || c == 'W' then Round(r.x2 - r.x1)
    else Round(r.y2 - r.y1)
  }

  /**
   The text of a geometry escape reads back, through `atoi`, as the rounded
   left edge, top edge, width or height of the rectangle (`GeometryValue`).
   */
  lemma NumberEscapeReadsBack(c: char, payload: string, r: Rect)
    requires c in "xXyYwWhH"
    ensures Atoi(EscapeText(c, payload, r)) == GeometryValue(c, r)
  {
    var n := GeometryValue(c, r);
    assert EscapeText(c, payload, r) == DecimalText(n);
    AtoiOfDecimalTextThen(n, []);
    assert DecimalText(n) + [] == DecimalText(n);
  }

  /** The expansion `spawn` builds in its command buffer. */
  function Expand(fmt: string, payload: string, r: Rect): (out: string)
    ensures '%' !in fmt ==> out == fmt
    decreases |fmt|
  {
    if |fmt| == 0 then ""
    else if fmt[0] == '%' && 1 < |fmt| then EscapeText(fmt[1], payload, r) + Expand(fmt[2..], payload, r)
    else
      assert fmt == [fmt[0]] + fmt[1..];
      [fmt[0]] + Expand(fmt[1..], payload, r)
  }

  /**
   The loop of `spawn`: an index walking the template and a command that
   grows by one piece per step.
   */
  method BuildCommand(fmt: string, payload: string, r: Rect) returns (cmd: string)
    ensures cmd == Expand(fmt, payload, r)
  {
    cmd := "";
    var i := 0;
    assert fmt[0..] == fmt;
    while i < |fmt|
      invariant 0 <= i <= |fmt|
      invariant cmd + Expand(fmt[i..], payload, r) == Expand(fmt, payload, r)
      decreases |fmt| - i
    {
      ExpandAt(fmt, i, payload, r);
      var piece;
      if fmt[i] == '%' && i + 1 < |fmt| {
        piece := EscapeText(fmt[i + 1], payload, r);
        i := i + 2;
      } else {
        piece := [fmt[i]];
        i := i + 1;
      }
      assert cmd + piece + Expand(fmt[i..], payload, r) == cmd + (piece + Expand(fmt[i..], payload, r));
      cmd := cmd + piece;
    }
    assert fmt[i..] == "";
  }

  /** One iteration of the loop, seen from position `i` of the template. */
  lemma ExpandAt(fmt: string, i: nat, payload: string, r: Rect)
    requires i < |fmt|
    ensures fmt[i] == '%' && i + 1 < |fmt| ==>
      Expand(fmt[i..], payload, r) == EscapeText(fmt[i + 1], payload, r) + Expand(fmt[i + 2..], payload, r)
    ensures !(fmt[i] == '%' && i + 1 < |fmt|) ==>
      Expand(fmt[i..], payload, r) == [fmt[i]] + Expand(fmt[i + 1..], payload, r)
  {
    var t := fmt[i..];
    assert t[0] == fmt[i];
    if fmt[i] == '%' && i + 1 < |fmt| {
      assert t[1] == fmt[i + 1] && t[2..] == fmt[i + 2..];
    } else {
      assert t[1..] == fmt[i + 1..];
    }
  }

  /** A template read as a sequence of pieces: a copied character or a two-character escape. */
  datatype Token = Literal(c: char) | Escape(c: char)

  function Spell(t: Token): string {
    match t
    case Literal(c) => [c]
    case Escape(c) => ['%', c]
  }

  function Untokenize(ts: seq<Token>): string {
    if |ts| == 0 then "" else Spell(ts[0]) + Untokenize(ts[1..])
  }

  /** `spawn`'s reading of a template, one piece per loop iteration. */
  function Tokenize(fmt: string): seq<Token>
    decreases |fmt|
  {
    if |fmt| == 0 then []
    else if fmt[0] == '%' && 1 < |fmt| then [Escape(fmt[1])] + Tokenize(fmt[2..])
    else [Literal(fmt[0])] + Tokenize(fmt[1..])
  }

  /** A copied `%` can only be the last piece: anywhere else it starts an escape. */
  predicate Canonical(ts: seq<Token>) {
    forall i :: 0 <= i < |ts| - 1 ==> ts[i] != Literal('%')
  }

  /** Whether a template ends in the middle of nothing, i.e. not on a lone trailing `%`. */
  predicate Closed(fmt: string) {
    var ts := Tokenize(fmt);
    |ts| == 0 || ts[|ts| - 1] != Literal('%')
  }

  /** The pieces cover the template exactly, and a copied `%` is only ever the last one. */
  lemma {:induction false} TokenizeRoundTrip(fmt: string)
    ensures Untokenize(Tokenize(fmt)) == fmt
    ensures Canonical(Tokenize(fmt))
    decreases |fmt|
  {
    if |fmt| == 0 {
    } else if fmt[0] == '%' && 1 < |fmt| {
      TokenizeRoundTrip(fmt[2..]);
      var ts := Tokenize(fmt);
      assert ts[1..] == Tokenize(fmt[2..]);
      assert fmt == ['%', fmt[1]] + fmt[2..];
    } else {
      TokenizeRoundTrip(fmt[1..]);
      var ts := Tokenize(fmt);
      assert ts[1..] == Tokenize(fmt[1..]);
      assert fmt == [fmt[0]] + fmt[1..];
      if fmt[0] == '%' {
        assert |fmt| == 1 && |ts| == 1;
      }
    }
  }

  /** Conversely, every canonical piece sequence is the reading of its own spelling. */
  lemma {:induction false} TokenizeUnique(ts: seq<Token>)
    requires Canonical(ts)
    ensures Tokenize(Untokenize(ts)) == ts
    decreases |ts|
  {
    if |ts| > 0 {
      var rest := ts[1..];
      assert Canonical(rest) by {
        forall i | 0 <= i < |rest| - 1
          ensures rest[i] != Literal('%')
        {
          assert rest[i] == ts[i + 1];
        }
      }
      TokenizeUnique(rest);
      var s := Untokenize(ts);
      assert s == Spell(ts[0]) + Untokenize(rest);
      match ts[0]
      case Escape(c) =>
        assert s[2..] == Untokenize(rest);
      case Literal(c) =>
        assert s[1..] == Untokenize(rest);
        if c == '%' {
          assert |ts| == 1;
          assert s == "%";
        }
    }
  }

  function Render(t: Token, payload: string, r: Rect): string {
    match t
    case Literal(c) => [c]
    case Escape(c) => EscapeText(c, payload, r)
  }

  function RenderAll(ts: seq<Token>, payload: string, r: Rect): string {
    if |ts| == 0 then "" else Render(ts[0], payload, r) + RenderAll(ts[1..], payload, r)
  }

  /** The command is the concatenation of each piece's output, in template order. */
  lemma {:induction false} ExpandByTokens(fmt: string, payload: string, r: Rect)
    ensures Expand(fmt, payload, r) == RenderAll(Tokenize(fmt), payload, r)
    decreases |fmt|
  {
    if |fmt| == 0 {
    } else if fmt[0] == '%' && 1 < |fmt| {
      ExpandByTokens(fmt[2..], payload, r);
      assert Tokenize(fmt)[1..] == Tokenize(fmt[2..]);
    } else {
      ExpandByTokens(fmt[1..], payload, r);
      assert Tokenize(fmt)[1..] == Tokenize(fmt[1..]);
    }
  }

  lemma {:induction false} UntokenizeConcat(a: seq<Token>, b: seq<Token>)
    ensures Untokenize(a + b) == Untokenize(a) + Untokenize(b)
    decreases |a|
  {
    if |a| == 0 {
      assert a + b == b;
    } else {
      assert (a + b)[1..] == a[1..] + b;
      UntokenizeConcat(a[1..], b);
    }
  }

  lemma {:induction false} RenderAllConcat(a: seq<Token>, b: seq<Token>, payload: string, r: Rect)
    ensures RenderAll(a + b, payload, r) == RenderAll(a, payload, r) + RenderAll(b, payload, r)
    decreases |a|
  {
    if |a| == 0 {
      assert a + b == b;
    } else {
      assert (a + b)[1..] == a[1..] + b;
      RenderAllConcat(a[1..], b, payload, r);
    }
  }

  /** Two templates read separately read as one when the first does not end on a lone `%`. */
  lemma TokenizeConcat(a: string, b: string)
    requires Closed(a)
    ensures Tokenize(a + b) == Tokenize(a) + Tokenize(b)
  {
    var ta, tb := Tokenize(a), Tokenize(b);
    TokenizeRoundTrip(a);
    TokenizeRoundTrip(b);
    UntokenizeConcat(ta, tb);
    assert Canonical(ta + tb) by {
      forall i | 0 <= i < |ta + tb| - 1
        ensures (ta + tb)[i] != Literal('%')
      {
        if i < |ta| - 1 {
          assert (ta + tb)[i] == ta[i];
        } else if i == |ta| - 1 {
          assert (ta + tb)[i] == ta[|ta| - 1];
        } else {
          assert (ta + tb)[i] == tb[i - |ta|];
        }
      }
    }
    TokenizeUnique(ta + tb);
  }

  /** Expansion distributes over concatenation at a piece boundary. */
  lemma ExpandConcat(a: string, b: string, payload: string, r: Rect)
    requires Closed(a)
    ensures Expand(a + b, payload, r) == Expand(a, payload, r) + Expand(b, payload, r)
  {
    TokenizeConcat(a, b);
    ExpandByTokens(a + b, payload, r);
    ExpandByTokens(a, payload, r);
    ExpandByTokens(b, payload, r);
    RenderAllConcat(Tokenize(a), Tokenize(b), payload, r);
  }

  /**
   An escape in the middle of a template contributes exactly its own text:
   `%%` one percent sign, `%s` the payload verbatim, a geometry escape its
   number, an unknown escape nothing.
   */
  lemma ExpandEscapeInContext(a: string, c: char, b: string, payload: string, r: Rect)
    requires Closed(a)
    ensures Expand(a + ['%', c] + b, payload, r)
         == Expand(a, payload, r) + EscapeText(c, payload, r) + Expand(b, payload, r)
  {
    assert a + ['%', c] + b == a + (['%', c] + b);
    ExpandConcat(a, ['%', c] + b, payload, r);
    assert (['%', c] + b)[2..] == b;
  }

  /** A lone `%` at the end of a template is copied. */
  lemma ExpandTrailingPercent(a: string, payload: string, r: Rect)
    requires Closed(a)
    ensures Expand(a + "%", payload, r) == Expand(a, payload, r) + "%"
  {
    ExpandConcat(a, "%", payload, r);
  }

  /** The payload reaches the command only through `%s`. */
  lemma {:induction false} PayloadOnlyThroughEscape(fmt: string, p1: string, p2: string, r: Rect)
    requires Escape('s') !in Tokenize(fmt)
    ensures Expand(fmt, p1, r) == Expand(fmt, p2, r)
    decreases |fmt|
  {
    if |fmt| == 0 {
    } else if fmt[0] == '%' && 1 < |fmt| {
      assert Tokenize(fmt) == [Escape(fmt[1])] + Tokenize(fmt[2..]);
      PayloadOnlyThroughEscape(fmt[2..], p1, p2, r);
    } else {
      assert Tokenize(fmt) == [Literal(fmt[0])] + Tokenize(fmt[1..]);
      PayloadOnlyThroughEscape(fmt[1..], p1, p2, r);
    }
  }

  /** One step of the walk from the front: a copied character. */
  lemma ExpandLiteralHead(c: char, rest: string, payload: string, r: Rect)
    requires c != '%'
    ensures Expand([c] + rest, payload, r) == [c] + Expand(rest, payload, r)
  {
    assert ([c] + rest)[1..] == rest;
  }

  /** One step of the walk from the front: an escape. */
  lemma ExpandEscapeHead(c: char, rest: string, payload: string, r: Rect)
    ensures Expand(['%', c] + rest, payload, r) == EscapeText(c, payload, r) + Expand(rest, payload, r)
  {
    assert (['%', c] + rest)[2..] == rest;
  }

  /** The text of the four geometry escapes, upper or lower case. */
  lemma GeometryEscapeText(c: char, p: string, r: Rect)
    ensures (c == 'x' || c == 'X') ==> EscapeText(c, p, r) == DecimalText(Round(r.x1))
    ensures (c == 'y' || c == 'Y') ==> EscapeText(c, p, r) == DecimalText(Round(r.y1))
    ensures (c == 'w' || c == 'W') ==> EscapeText(c, p, r) == DecimalText(Round(r.x2 - r.x1))
    ensures (c == 'h' || c == 'H') ==> EscapeText(c, p, r) == DecimalText(Round(r.y2 - r.y1))
  {
  }

  /** Rounding and printing of the worked example's position numbers. */
  lemma ExamplePosition(p: string, r: Rect)
    requires r == Rect(10.4, 20.6, 110.4, 70.6)
    ensures EscapeText('x', p, r) == "10" && EscapeText('y', p, r) == "21"
  {
    GeometryEscapeText('x', p, r);
    GeometryEscapeText('y', p, r);
    assert Round(r.x1) == 10 && Round(r.y1) == 21;
  }

  /** Rounding and printing of the worked example's size numbers. */
  lemma ExampleSize(p: string, r: Rect)
    requires r == Rect(10.4, 20.6, 110.4, 70.6)
    ensures EscapeText('w', p, r) == "100" && EscapeText('h', p, r) == "50"
  {
    GeometryEscapeText('w', p, r);
    GeometryEscapeText('h', p, r);
    assert Round(r.x2 - r.x1) == 100 && Round(r.y2 - r.y1) == 50;
  }

  /** The worked template's tail, the four geometry escapes. */
  lemma ExampleGeometry(p: string, r: Rect)
    requires r == Rect(10.4, 20.6, 110.4, 70.6)
    ensures Expand("%x,%y %wx%h", p, r) == "10,21 100x50"
  {
    var ex, ey, ew, eh := EscapeText('x', p, r), EscapeText('y', p, r), EscapeText('w', p, r), EscapeText('h', p, r);
    ExampleGeometryShape(p, r, ex, ey, ew, eh);
    ExamplePosition(p, r);
    ExampleSize(p, r);
    ExampleGeometryText(ex, ey, ew, eh);
  }

  lemma ExampleGeometryText(ex: string, ey: string, ew: string, eh: string)
    requires ex == "10" && ey == "21" && ew == "100" && eh == "50"
    ensures ex + "," + ey + " " + ew + "x" + eh == "10,21 100x50"
  {
  }

  lemma ExampleGeometryShape(p: string, r: Rect, ex: string, ey: string, ew: string, eh: string)
    requires ex == EscapeText('x', p, r) && ey == EscapeText('y', p, r)
    requires ew == EscapeText('w', p, r) && eh == EscapeText('h', p, r)
    ensures Expand("%x,%y %wx%h", p, r) == ex + "," + ey + " " + ew + "x" + eh
  {
    var t0: string := [];
    var t1 := ['%', 'h'] + t0;
    ExpandEscapeHead('h', t0, p, r);
    var t2 := ['x'] + t1;
    ExpandLiteralHead('x', t1, p, r);
    var t3 := ['%', 'w'] + t2;
    ExpandEscapeHead('w', t2, p, r);
    var t4 := [' '] + t3;
    ExpandLiteralHead(' ', t3, p, r);
    var t5 := ['%', 'y'] + t4;
    ExpandEscapeHead('y', t4, p, r);
    var t6 := [','] + t5;
    ExpandLiteralHead(',', t5, p, r);
    var t7 := ['%', 'x'] + t6;
    ExpandEscapeHead('x', t6, p, r);
    assert Expand(t7, p, r) == ex + ([','] + (ey + ([' '] + (ew + (['x'] + (eh + []))))));
    ExampleGeometrySpelling();
    Reassociate(ex, ey, ew, eh);
  }

  lemma ExampleGeometrySpelling()
    ensures ['%', 'x'] + ([','] + (['%', 'y'] + ([' '] + (['%', 'w'] + (['x'] + (['%', 'h'] + [])))))) == "%x,%y %wx%h"
  {
  }

  lemma Reassociate(ex: string, ey: string, ew: string, eh: string)
    ensures ex + ([','] + (ey + ([' '] + (ew + (['x'] + (eh + [])))))) == ex + "," + ey + " " + ew + "x" + eh
  {
  }

  /** A worked template: each geometry number is rounded on its own. */
  lemma ExampleExpansion(p: string, r: Rect)
    requires p == "foo.mp4" && r == Rect(10.4, 20.6, 110.4, 70.6)
    ensures Expand("open %s @%x,%y %wx%h", p, r) == "open foo.mp4 @10,21 100x50"
  {
    var g: string := "%x,%y %wx%h";
    ExampleGeometry(p, r);
    var t1 := ['@'] + g;
    ExpandLiteralHead('@', g, p, r);
    var t2 := [' '] + t1;
    ExpandLiteralHead(' ', t1, p, r);
    var t3 := ['%', 's'] + t2;
    ExpandEscapeHead('s', t2, p, r);
    var t4 := [' '] + t3;
    ExpandLiteralHead(' ', t3, p, r);
    var t5 := ['n'] + t4;
    ExpandLiteralHead('n', t4, p, r);
    var t6 := ['e'] + t5;
    ExpandLiteralHead('e', t5, p, r);
    var t7 := ['p'] + t6;
    ExpandLiteralHead('p', t6, p, r);
    var t8 := ['o'] + t7;
    ExpandLiteralHead('o', t7, p, r);
    var e := "10,21 100x50";
    assert Expand(t8, p, r) == ['o'] + (['p'] + (['e'] + (['n'] + ([' '] + (p + ([' '] + (['@'] + e)))))));
    ExampleSpelling(g);
    ExampleResult(p, e);
  }

  lemma ExampleSpelling(g: string)
    requires g == "%x,%y %wx%h"
    ensures ['o'] + (['p'] + (['e'] + (['n'] + ([' '] + (['%', 's'] + ([' '] + (['@'] + g))))))) == "open %s @%x,%y %wx%h"
  {
  }

  lemma ExampleResult(p: string, e: string)
    requires p == "foo.mp4" && e == "10,21 100x50"
    ensures ['o'] + (['p'] + (['e'] + (['n'] + ([' '] + (p + ([' '] + (['@'] + e))))))) == "open foo.mp4 @10,21 100x50"
  {
  }

  /** Outcome of a spawn request: the command handed to the shell, or no template for the kind. */
  datatype SpawnResult = Run(command: string) | NoTemplate

  /**
   `spawn`: look up the template configured for the kind; without one, only
   a diagnostic results and nothing is expanded.
   */
  function Spawn<K>(templates: map<K, string>, kind: K, payload: string, r: Rect): (res: SpawnResult)
    ensures res.NoTemplate? <==> kind !in templates
    ensures res.Run? ==> res.command == Expand(templates[kind], payload, r)
  {
    if kind in templates then Run(Expand(templates[kind], payload, r)) else NoTemplate
  }

  /**
   A spawned command is the kind's template read piece by piece: each
   copied character as itself, each escape as its own text.
   */
  lemma SpawnByTokens<K>(templates: map<K, string>, kind: K, payload: string, r: Rect)
    ensures Spawn(templates, kind, payload, r).Run? ==>
              Spawn(templates, kind, payload, r).command == RenderAll(Tokenize(templates[kind]), payload, r)
  {
    if kind in templates {
      ExpandByTokens(templates[kind], payload, r);
    }
  }

  /** Without a `%s` in the kind's template, the spawned command does not depend on the payload. */
  lemma SpawnIgnoresPayload<K>(templates: map<K, string>, kind: K, p1: string, p2: string, r: Rect)
    requires kind in templates ==> Escape('s') !in Tokenize(templates[kind])
    ensures Spawn(templates, kind, p1, r) == Spawn(templates, kind, p2, r)
  {
    if kind in templates {
      PayloadOnlyThroughEscape(templates[kind], p1, p2, r);
    }
  }

}
