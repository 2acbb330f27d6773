/** The two line sources of rtlexporter.py: `read_stdin` (lines 60-72) and
    `read_http` (lines 49-58). The stream and the HTTP responses are given
    as the text they deliver. */
module Sources {
  import opened Wrappers

  /** One yielded stdin line: it ends with its only newline. */
  predicate IsLine(l: string)
  {
    |l| > 0 && l[|l| - 1] == '\n' && '\n' !in l[..|l| - 1]
  }

  predicate AllLines(ls: seq<string>)
  {
    forall i :: 0 <= i < |ls| ==> IsLine(ls[i])
  }

  /** The lines glued back together. */
  function Concat(ls: seq<string>): string
    decreases |ls|
  {
    if ls == [] then [] else Concat(ls[..|ls| - 1]) + ls[|ls| - 1]
  }

  /** `read_stdin` run over a finite input: the lines it yields, in order,
      and what is left in `buff` when the input ends. Each line ends with
      its only newline, the yielded lines are exactly the input up to its
      last newline, and the buffer never holds a newline (it is emptied at
      each yield). */
  method ReadStdin(input: string) returns (lines: seq<string>, buff: string)
    ensures AllLines(lines)
    ensures Concat(lines) + buff == input
    ensures '\n' !in buff
  {
    lines, buff := [], "";
    var i := 0;
    while i < |input|
      invariant 0 <= i <= |input|
      invariant AllLines(lines)
      invariant Concat(lines) + buff == input[..i]
      invariant '\n' !in buff
    {
      assert input[..i + 1] == input[..i] + [input[i]];
      buff := buff + [input[i]];
      if buff[|buff| - 1] == '\n' {
        assert Concat(lines + [buff]) == Concat(lines) + buff by {
          assert (lines + [buff])[..|lines|] == lines;
        }
        lines := lines + [buff];
        buff := "";
      }
      i := i + 1;
    }
    assert input[..i] == input;
  }

  /** The number of characters after the last newline. */
  function TrailLen(s: string): nat
    decreases |s|
  {
    if s == [] || s[|s| - 1] == '\n' then 0 else TrailLen(s[..|s| - 1]) + 1
  }

  lemma {:induction false} TrailLenAfterNewline(p: string, x: string)
    requires p == [] || p[|p| - 1] == '\n'
    requires '\n' !in x
    ensures TrailLen(p + x) == |x|
    decreases |x|
  {
    if x != [] {
      assert (p + x)[..|p + x| - 1] == p + x[..|x| - 1];
      TrailLenAfterNewline(p, x[..|x| - 1]);
    } else {
      assert p + x == p;
    }
  }

  /** Each line contributes at least one character. */
  lemma {:induction false} ConcatLength(ls: seq<string>)
    requires AllLines(ls)
    ensures |Concat(ls)| >= |ls|
    ensures ls != [] ==> Concat(ls)[|Concat(ls)| - 1] == '\n'
    decreases |ls|
  {
    if ls != [] {
      ConcatLength(ls[..|ls| - 1]);
    }
  }

  /** A stream splits into yielded lines and a pending buffer in only one way:
      what `ReadStdin` returns is fully determined by its postcondition. */
  lemma StdinSplitUnique(a: seq<string>, x: string, b: seq<string>, y: string)
    requires AllLines(a) && AllLines(b)
    requires '\n' !in x && '\n' !in y
    requires Concat(a) + x == Concat(b) + y
    ensures a == b && x == y
  {
    TrailUnique(a, x, b, y);
    ConcatUnique(a, b);
  }

  /** The pending buffer is the text after the last newline. */
  lemma TrailUnique(a: seq<string>, x: string, b: seq<string>, y: string)
    requires AllLines(a) && AllLines(b)
    requires '\n' !in x && '\n' !in y
    requires Concat(a) + x == Concat(b) + y
    ensures x == y && Concat(a) == Concat(b)
  {
    var s := Concat(a) + x;
    ConcatLength(a);
    ConcatLength(b);
    TrailLenAfterNewline(Concat(a), x);
    TrailLenAfterNewline(Concat(b), y);
    assert x == s[|s| - |x|..];
    assert y == s[|s| - |y|..];
    assert Concat(a) == s[..|s| - |x|];
    assert Concat(b) == s[..|s| - |y|];
  }

  /** The yielded lines are the text cut after each newline. */
  lemma {:induction false} ConcatUnique(a: seq<string>, b: seq<string>)
    requires AllLines(a) && AllLines(b)
    requires Concat(a) == Concat(b)
    ensures a == b
    decreases |a|
  {
    ConcatLength(a);
    ConcatLength(b);
    if a != [] && b != [] {
      var a', la := a[..|a| - 1], a[|a| - 1];
      var b', lb := b[..|b| - 1], b[|b| - 1];
      var x', y' := la[..|la| - 1], lb[..|lb| - 1];
      assert la == x' + "\n" && lb == y' + "\n";
      assert AllLines(a') && AllLines(b');
      assert Concat(a') + la == (Concat(a') + x') + "\n";
      assert Concat(b') + lb == (Concat(b') + y') + "\n";
      assert Concat(a') + x' == Concat(b') + y' by {
        var s := Concat(a);
        assert Concat(a') + x' == s[..|s| - 1];
        assert Concat(b') + y' == s[..|s| - 1];
      }
      TrailUnique(a', x', b', y');
      ConcatUnique(a', b');
      assert a == a' + [la] && b == b' + [lb];
    }
  }

  /** Python's `s.split("\n")`: the pieces between newlines, at least one,
      none holding a newline. */
  function SplitLines(s: string): (pieces: seq<string>)
    ensures |pieces| >= 1
    ensures forall i :: 0 <= i < |pieces| ==> '\n' !in pieces[i]
    decreases |s|
  {
    if s == [] then [""]
    else
      var init := SplitLines(s[..|s| - 1]);
      if s[|s| - 1] == '\n' then init + [""]
      else init[..|init| - 1] + [init[|init| - 1] + [s[|s| - 1]]]
  }

  /** Python's `"\n".join(pieces)`. */
  function JoinLines(pieces: seq<string>): string
    requires |pieces| >= 1
    decreases |pieces|
  {
    if |pieces| == 1 then pieces[0]
    else JoinLines(pieces[..|pieces| - 1]) + "\n" + pieces[|pieces| - 1]
  }

  /** A trailing newline opens a new, empty piece. */
  lemma SplitNewline(t: string)
    ensures SplitLines(t + "\n") == SplitLines(t) + [""]
  {
    assert (t + "\n")[..|t|] == t;
  }

  /** Joining the pieces of a split with newlines gives the text back. */
  lemma {:induction false} JoinSplit(s: string)
    ensures JoinLines(SplitLines(s)) == s
    decreases |s|
  {
    if s != [] {
      var t := s[..|s| - 1];
      var init := SplitLines(t);
      JoinSplit(t);
      var ps := SplitLines(s);
      if s[|s| - 1] == '\n' {
        assert ps == init + [""];
        assert ps[..|ps| - 1] == init;
      } else {
        assert ps[..|ps| - 1] == init[..|init| - 1];
        if |init| > 1 {
          assert JoinLines(init) == JoinLines(init[..|init| - 1]) + "\n" + init[|init| - 1];
        }
      }
      assert s == t + [s[|s| - 1]];
    }
  }

  /** Splitting a join of newline-free pieces gives the pieces back (the
      pieces written as `init + [last]`, so that there is at least one). */
  lemma {:induction false} SplitJoin(init: seq<string>, last: string)
    requires forall i :: 0 <= i < |init| ==> '\n' !in init[i]
    requires '\n' !in last
    ensures SplitLines(JoinLines(init + [last])) == init + [last]
    decreases |init|
  {
    if init == [] {
      SplitAppend([], last, []);
      assert [] + last == last;
      assert JoinLines([] + [last]) == last;
    } else {
      var n := |init| - 1;
      SplitJoin(init[..n], init[n]);
      assert init[..n] + [init[n]] == init;
      SplitJoinStep(init, last);
    }
  }

  /** One more piece after a newline: the split gains exactly that piece. */
  lemma SplitJoinStep(init: seq<string>, last: string)
    requires |init| >= 1 && '\n' !in last
    requires SplitLines(JoinLines(init)) == init
    ensures SplitLines(JoinLines(init + [last])) == init + [last]
  {
    var j := JoinLines(init);
    SplitNewline(j);
    assert (j + "\n")[|j|] == '\n';
    SplitAppend(j + "\n", last, init);
    assert (init + [last])[..|init|] == init;
    assert JoinLines(init + [last]) == (j + "\n") + last;
  }

  /** Splitting `p + l`, where `p` is either empty or the split of `init`
      followed by a newline: the pieces of `p` then `l`. */
  lemma {:induction false} SplitAppend(p: string, l: string, init: seq<string>)
    requires '\n' !in l
    requires p == [] ==> init == []
    requires p != [] ==> |init| >= 1 && p[|p| - 1] == '\n' && SplitLines(p) == init + [""]
    ensures SplitLines(p + l) == init + [l]
    decreases |l|
  {
    if l == [] {
      assert p + l == p;
    } else {
      var l' := l[..|l| - 1];
      SplitAppend(p, l', init);
      assert (p + l)[..|p + l| - 1] == p + l';
      assert l == l' + [l[|l| - 1]];
    }
  }

  /** The non-empty pieces, in order (`[_ for _ in pieces if _]`): every
      non-empty piece is kept and nothing else, and a non-empty last piece
      stays last. `NonEmptyAppend` says that the order is kept throughout. */
  function NonEmpty(pieces: seq<string>): (ne: seq<string>)
    ensures forall s :: s in ne <==> s in pieces && s != ""
    ensures |ne| <= |pieces|
    ensures pieces != [] && pieces[|pieces| - 1] != "" ==> ne != [] && ne[|ne| - 1] == pieces[|pieces| - 1]
    decreases |pieces|
  {
    if pieces == [] then []
    else
      var init, last := pieces[..|pieces| - 1], pieces[|pieces| - 1];
      assert pieces == init + [last];
      if last == "" then NonEmpty(init) else NonEmpty(init) + [last]
  }

  /** Filtering a concatenation filters each part and keeps them in order. */
  lemma {:induction false} NonEmptyAppend(a: seq<string>, b: seq<string>)
    ensures NonEmpty(a + b) == NonEmpty(a) + NonEmpty(b)
    decreases |b|
  {
    if b == [] {
      assert a + b == a;
    } else {
      var b' := b[..|b| - 1];
      NonEmptyAppend(a, b');
      assert (a + b)[..|a + b| - 1] == a + b';
    }
  }

  /** `lines[-1]` of the non-empty pieces of the body, `None` where Python
      raises IndexError (a body with no non-empty line). What it picks is a
      non-empty piece of the split; `LastLineShape`, `LastLineSplit` and
      `LastLineOf` characterise it in terms of the body alone. */
  function LastLine(body: string): (r: Option<string>)
    ensures r.Some? ==> r.value != "" && '\n' !in r.value && r.value in SplitLines(body)
  {
    var ps := SplitLines(body);
    var ls := NonEmpty(ps);
    if ls == [] then None
    else
      assert ls[|ls| - 1] in ls;
      assert forall s :: s in ps ==> '\n' !in s;
      Some(ls[|ls| - 1])
  }

  predicate AllNewlines(s: string)
  {
    forall i :: 0 <= i < |s| ==> s[i] == '\n'
  }

  /** A trailing newline adds only an empty piece, which is dropped. */
  lemma LastLineNewline(s: string)
    ensures LastLine(s + "\n") == LastLine(s)
  {
    SplitNewline(s);
    var ps := SplitLines(s);
    NonEmptyAppend(ps, [""]);
    assert NonEmpty([""]) == [];
    assert NonEmpty(ps) + [] == NonEmpty(ps);
  }

  /** A body ending in a character other than a newline yields its last piece. */
  lemma LastLineNoNewline(s: string)
    requires s != [] && s[|s| - 1] != '\n'
    ensures var ps := SplitLines(s); ps[|ps| - 1] != "" && LastLine(s) == Some(ps[|ps| - 1])
  {
    var ps := SplitLines(s);
    assert ps[..|ps| - 1] + [ps[|ps| - 1]] == ps;
  }

  /** `read_http` picks nothing exactly when the body is only newlines; what
      it picks is a non-empty line without a newline. */
  lemma {:induction false} LastLineShape(body: string)
    ensures LastLine(body).None? <==> AllNewlines(body)
    ensures LastLine(body).Some? ==> LastLine(body).value != "" && '\n' !in LastLine(body).value
    decreases |body|
  {
    if body != [] {
      var init := body[..|body| - 1];
      if body[|body| - 1] == '\n' {
        LastLineShape(init);
        assert body == init + "\n";
        LastLineNewline(init);
      } else {
        LastLineNoNewline(body);
      }
    }
  }

  /** Where the picked line sits: after the last newline before the trailing
      newlines of the body. */
  lemma {:induction false} LastLineSplit(body: string) returns (p: string, q: string)
    requires LastLine(body).Some?
    ensures body == p + LastLine(body).value + q
    ensures p == [] || p[|p| - 1] == '\n'
    ensures AllNewlines(q)
    decreases |body|
  {
    var init := body[..|body| - 1];
    if body[|body| - 1] == '\n' {
      assert body == init + "\n";
      LastLineNewline(init);
      var q';
      p, q' := LastLineSplit(init);
      q := q' + "\n";
    } else {
      LastLineNoNewline(body);
      var ps := SplitLines(body);
      var l := ps[|ps| - 1];
      q := [];
      if |ps| == 1 {
        p := [];
      } else {
        p := JoinLines(ps[..|ps| - 1]) + "\n";
      }
      JoinSplit(body);
      assert |ps| == 1 ==> JoinLines(ps) == l;
      assert |ps| > 1 ==> JoinLines(ps) == p + l;
    }
  }

  /** The converse: a non-empty newline-free line placed after a newline (or
      at the start) and followed only by newlines is what `read_http` picks. */
  lemma {:induction false} LastLineOf(p: string, l: string, q: string)
    requires l != [] && '\n' !in l
    requires p == [] || p[|p| - 1] == '\n'
    requires AllNewlines(q)
    ensures LastLine(p + l + q) == Some(l)
    decreases |q|
  {
    if q == [] {
      assert p + l + q == p + l;
      var init := if p == [] then [] else SplitLines(p)[..|SplitLines(p)| - 1];
      if p != [] {
        var i := p[..|p| - 1];
        assert (i + "\n")[..|i|] == i;
        assert p == i + "\n";
      }
      SplitAppend(p, l, init);
      LastLineNoNewline(p + l);
    } else {
      var q' := q[..|q| - 1];
      LastLineOf(p, l, q');
      assert p + l + q == (p + l + q') + "\n";
      LastLineNewline(p + l + q');
    }
  }

  /** `read_http` over a finite run of responses: the line yielded per
      response, stopping at the first response with no non-empty line
      (where Python raises IndexError). */
  method ReadHttp(responses: seq<string>) returns (lines: seq<string>, failed: bool)
    ensures |lines| <= |responses|
    ensures forall i :: 0 <= i < |lines| ==> LastLine(responses[i]) == Some(lines[i])
    ensures failed <==> |lines| < |responses|
    ensures failed ==> LastLine(responses[|lines|]).None? && AllNewlines(responses[|lines|])
  {
    lines := [];
    while |lines| < |responses|
      invariant |lines| <= |responses|
      invariant forall i :: 0 <= i < |lines| ==> LastLine(responses[i]) == Some(lines[i])
    {
      match LastLine(responses[|lines|])
      case None =>
        LastLineShape(responses[|lines|]);
        return lines, true;
      case Some(l) =>
        lines := lines + [l];
    }
    failed := false;
  }
}
