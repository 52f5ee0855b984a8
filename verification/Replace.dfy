/** `replace_all`: replacing every occurrence of a pattern in a string, in place. */
module Replace {
  import opened Options
  import opened Seqs

  /** An occurrence of `from` in `s` at `p`. */
  predicate OccursAt(s: string, from: string, p: nat) {
    p <= |s| && from <= s[p..]
  }

  /** `std::string::find`: the least occurrence that is not before `start`. */
  function Find(s: string, from: string, start: nat): (r: Option<nat>)
    ensures r.Some? ==> start <= r.value && r.value + |from| <= |s|
    decreases |s| + 1 - start
  {
    if start + |from| > |s| then None
    else if OccursAt(s, from, start) then Some(start)
    else Find(s, from, start + 1)
  }

  /** No occurrence from `start` up to, but not including, `end`. */
  ghost predicate NoneBefore(s: string, from: string, start: nat, end: nat) {
    forall p :: start <= p < end ==> !OccursAt(s, from, p)
  }

  /** The leftmost occurrence. */
  ghost predicate FirstAt(s: string, from: string, p: nat) {
    OccursAt(s, from, p) && NoneBefore(s, from, 0, p)
  }

  ghost predicate Absent(s: string, from: string) {
    NoneBefore(s, from, 0, |s| + 1)
  }

  lemma {:induction false} FindMeaning(s: string, from: string, start: nat)
    ensures var r := Find(s, from, start);
      && (r.Some? ==> OccursAt(s, from, r.value))
      && NoneBefore(s, from, start, if r.Some? then r.value else |s| + 1)
    decreases |s| + 1 - start
  {
    if start + |from| <= |s| && !OccursAt(s, from, start) { FindMeaning(s, from, start + 1); }
  }

  lemma FoundFirst(s: string, from: string)
    ensures Find(s, from, 0).Some? ==> FirstAt(s, from, Find(s, from, 0).value)
    ensures Find(s, from, 0).None? <==> Absent(s, from)
  {
    FindMeaning(s, from, 0);
  }

  lemma FirstFound(s: string, from: string, p: nat)
    requires FirstAt(s, from, p)
    ensures Find(s, from, 0) == Some(p)
  {
    FindMeaning(s, from, 0);
  }

  /** The string and the place to search from, after a number of turns of the loop; none once it has ended. */
  function Turns(s: string, from: string, to: string, n: nat): (r: Option<(string, nat)>)
    ensures r.Some? ==> r.value.1 <= |r.value.0|
  {
    if n == 0 then if s == "" then None else Some((s, 0))
    else
      var before := Turns(s, from, to, n - 1);
      if before.None? then None
      else
        var (chars, start) := before.value;
        var p := Find(chars, from, start);
        if p.None? then None
        else Some((chars[..p.value] + to + chars[p.value + |from|..], p.value + |to|))
  }

  lemma NextTurn(s: string, from: string, to: string, n: nat, chars: string, start: nat, p: nat, chars': string)
    requires start <= |chars| && Turns(s, from, to, n) == Some((chars, start)) && Find(chars, from, start) == Some(p)
    requires p + |from| <= |chars| && chars' == chars[..p] + to + chars[p + |from|..]
    ensures Turns(s, from, to, n + 1) == Some((chars', p + |to|))
  {
  }

  /** What holds at the start of a turn: what lies before the place is done, and the rest is to do. */
  ghost predicate AtTurn(s: string, from: string, to: string, n: nat, chars: string, start: nat) {
    && start <= |chars| && Turns(s, from, to, n) == Some((chars, start))
    && (from != "" ==> chars[..start] + Replaced(chars[start..], from, to) == Replaced(s, from, to))
  }

  lemma TurnDone(s: string, from: string, to: string, n: nat, chars: string, start: nat, p: nat, done: string, rest: string)
    requires from != "" && AtTurn(s, from, to, n, chars, start) && Find(chars, from, start) == Some(p)
    requires p + |from| <= |chars| && done == chars[..p] + to && rest == chars[p + |from|..]
    ensures AtTurn(s, from, to, n + 1, done + rest, p + |to|)
  {
    NextTurn(s, from, to, n, chars, start, p, done + rest);
    OneReplacement(chars, start, from, to, p);
    Spliced(done, rest);
  }

  lemma {:induction false} TurnsShrink(s: string, from: string, to: string, n: nat)
    requires from != ""
    ensures var r := Turns(s, from, to, n); r.Some? ==> |r.value.0| - r.value.1 + n <= |s|
  {
    if n > 0 { TurnsShrink(s, from, to, n - 1); }
  }

  /** An empty pattern is always found where the search starts. */
  lemma {:induction false} TurnsGoOn(s: string, to: string, n: nat)
    requires s != ""
    ensures Turns(s, "", to, n).Some?
  {
    if n > 0 {
      TurnsGoOn(s, to, n - 1);
      var (chars, start) := Turns(s, "", to, n - 1).value;
      assert OccursAt(chars, "", start);
    }
  }

  /** The loop ends exactly when the pattern is not empty or the string is. */
  lemma LoopEndsExactly(s: string, from: string, to: string)
    ensures (exists n: nat :: Turns(s, from, to, n).None?) <==> from != "" || s == ""
  {
    if s == "" {
      assert Turns(s, from, to, 0).None?;
    } else if from != "" {
      TurnsShrink(s, from, to, |s| + 1);
      assert Turns(s, from, to, |s| + 1).None?;
    } else {
      forall n: nat ensures Turns(s, from, to, n).Some? { TurnsGoOn(s, to, n); }
    }
  }

  class Text {
    var chars: string

    constructor (s: string)
      ensures chars == s
    {
      chars := s;
    }

    /** With an empty pattern and a non-empty string the loop would insert for ever. */
    method ReplaceAll(from: string, to: string) returns (ret: int)
      requires from != "" || chars == ""
      modifies this
      ensures ret == 0
      ensures old(chars) == "" ==> chars == ""
      ensures from != "" ==> chars == Replaced(old(chars), from, to)
    {
      ret := 0;
      if |chars| == 0 {
        return;
      }
      var startPos: nat := 0;
      var found := Find(chars, from, startPos);
      ghost var n: nat := 0;
      while found.Some?
        invariant AtTurn(old(chars), from, to, n, chars, startPos) && found == Find(chars, from, startPos)
        decreases |chars| - startPos
      {
        var p := found.value;
        TurnDone(old(chars), from, to, n, chars, startPos, p, chars[..p] + to, chars[p + |from|..]);
        chars := chars[..p] + to + chars[p + |from|..];
        startPos := p + |to|;
        found := Find(chars, from, startPos);
        n := n + 1;
      }
      NothingLeft(chars, startPos, from, to);
    }
  }

  /** A scan from the left: an occurrence is replaced and skipped, any other character is kept. */
  function Replaced(s: string, from: string, to: string): string
    decreases |s|
  {
    if s == "" || from == "" then s
    else if from <= s then to + Replaced(s[|from|..], from, to)
    else [s[0]] + Replaced(s[1..], from, to)
  }

  /** Occurrences in the rest of a string are the later occurrences in the string. */
  lemma OccursFrom(s: string, from: string, k: nat, q: nat)
    requires k <= |s|
    ensures OccursAt(s[k..], from, q) <==> OccursAt(s, from, k + q)
  {
    if k + q <= |s| { assert s[k..][q..] == s[k + q..]; }
  }

  lemma FirstFrom(s: string, from: string, k: nat, p: nat)
    requires k <= p && k <= |s|
    ensures OccursAt(s[k..], from, p - k) <==> OccursAt(s, from, p)
    ensures NoneBefore(s[k..], from, 0, p - k) <==> NoneBefore(s, from, k, p)
  {
    OccursFrom(s, from, k, p - k);
    forall q | 0 <= q < p - k ensures OccursAt(s[k..], from, q) <==> OccursAt(s, from, k + q) {
      OccursFrom(s, from, k, q);
    }
    if NoneBefore(s[k..], from, 0, p - k) {
      forall q | k <= q < p ensures !OccursAt(s, from, q) { assert !OccursAt(s[k..], from, q - k); }
    }
  }

  lemma ReplacedStep(s: string, from: string, to: string)
    requires s != "" && from != ""
    ensures Replaced(s, from, to) ==
      if OccursAt(s, from, 0) then to + Replaced(s[|from|..], from, to) else [s[0]] + Replaced(s[1..], from, to)
  {
    assert s[0..] == s;
  }

  lemma Shifted(s: string, k: nat, m: nat)
    requires 0 < k <= m <= |s|
    ensures s[..k] == [s[0]] + s[1..][..k - 1] && s[1..][m - 1..] == s[m..]
  {
    var t := s[1..];
    assert forall i :: 0 <= i < |t| ==> t[i] == s[i + 1];
    assert s[..k] == [s[0]] + t[..k - 1];
    assert t[m - 1..] == s[m..];
  }

  lemma ReplacedNow(s: string, from: string, to: string)
    requires from != "" && OccursAt(s, from, 0)
    ensures |from| <= |s| && Replaced(s, from, to) == s[..0] + to + Replaced(s[0 + |from|..], from, to)
  {
    ReplacedStep(s, from, to);
    assert s[..0] + to == to;
  }

  lemma ReplacedLater(s: string, from: string, to: string, p: nat)
    requires from != "" && 0 < p && p + |from| <= |s| && !OccursAt(s, from, 0)
    requires Replaced(s[1..], from, to) == s[1..][..p - 1] + to + Replaced(s[1..][p - 1 + |from|..], from, to)
    ensures Replaced(s, from, to) == s[..p] + to + Replaced(s[p + |from|..], from, to)
  {
    var head, rest := s[1..][..p - 1], s[p + |from|..];
    ReplacedStep(s, from, to);
    Shifted(s, p, p + |from|);
    assert s[1..][p - 1 + |from|..] == rest;
    assert Replaced(s, from, to) == [s[0]] + (head + to + Replaced(rest, from, to));
    Assoc4([s[0]], head, to, Replaced(rest, from, to));
  }

  lemma {:induction false} ReplacedFirst(s: string, from: string, to: string, p: nat)
    requires from != "" && FirstAt(s, from, p)
    ensures p + |from| <= |s| && Replaced(s, from, to) == s[..p] + to + Replaced(s[p + |from|..], from, to)
    decreases p
  {
    if p == 0 {
      ReplacedNow(s, from, to);
    } else {
      assert !OccursAt(s, from, 0);
      FirstFrom(s, from, 1, p);
      ReplacedFirst(s[1..], from, to, p - 1);
      ReplacedLater(s, from, to, p);
    }
  }

  lemma {:induction false} ReplacedNone(s: string, from: string, to: string)
    requires Absent(s, from)
    ensures Replaced(s, from, to) == s
    decreases |s|
  {
    if s != "" && from != "" {
      assert !OccursAt(s, from, 0);
      FirstFrom(s, from, 1, |s| + 1);
      ReplacedNone(s[1..], from, to);
      ReplacedStep(s, from, to);
      assert [s[0]] + s[1..] == s;
    }
  }

  lemma Slices(s: string, i: nat, j: nat, k: nat)
    requires i <= j <= k <= |s|
    ensures s[i..][k - i..] == s[k..] && s[..j] == s[..i] + s[i..][..j - i]
  {
  }

  /** Replacing the first occurrence after `start` moves it from what is left to what is done. */
  lemma OneReplacement(s: string, start: nat, from: string, to: string, p: nat)
    requires from != "" && start <= |s| && Find(s, from, start) == Some(p)
    ensures s[..start] + Replaced(s[start..], from, to) == (s[..p] + to) + Replaced(s[p + |from|..], from, to)
  {
    var head, k, tail, rest := s[..start], p - start, s[start..], Replaced(s[p + |from|..], from, to);
    FindMeaning(s, from, start);
    FirstFrom(s, from, start, p);
    ReplacedFirst(tail, from, to, k);
    Slices(s, start, p, p + |from|);
    assert tail[k + |from|..] == s[p + |from|..];
    Assoc4(head, tail[..k], to, rest);
  }

  lemma NothingLeft(s: string, start: nat, from: string, to: string)
    requires start <= |s| && Find(s, from, start) == None
    ensures s[..start] + Replaced(s[start..], from, to) == s
  {
    FindMeaning(s, from, start);
    FirstFrom(s, from, start, |s| + 1);
    ReplacedNone(s[start..], from, to);
    assert s[..start] + s[start..] == s;
  }

  lemma Spliced(a: string, b: string)
    ensures (a + b)[..|a|] == a && (a + b)[|a|..] == b
  {
  }

  // ---- splitting and joining ----

  /** The string cut at the leftmost occurrences that do not overlap. */
  function Pieces(s: string, from: string): (ps: seq<string>)
    requires from != ""
    ensures ps != []
    decreases |s|
  {
    var p := Find(s, from, 0);
    if p.None? then [s] else [s[..p.value]] + Pieces(s[p.value + |from|..], from)
  }

  function Join(ps: seq<string>, to: string): string
    requires ps != []
  {
    if |ps| == 1 then ps[0] else ps[0] + to + Join(ps[1..], to)
  }

  /** A cut is at leftmost occurrences when no piece but the last, followed by the pattern, has an
      earlier occurrence, and the last one has none. */
  ghost predicate Leftmost(ps: seq<string>, from: string) {
    && (forall i :: 0 <= i < |ps| - 1 ==> FirstAt(ps[i] + from, from, |ps[i]|))
    && (ps != [] ==> Absent(ps[|ps| - 1], from))
  }

  lemma JoinCons(p: string, ps: seq<string>, to: string)
    requires ps != []
    ensures Join([p] + ps, to) == p + to + Join(ps, to)
  {
    assert ([p] + ps)[1..] == ps;
  }

  /** Replacing is splitting and joining. */
  lemma {:induction false} ReplacedIsJoin(s: string, from: string, to: string)
    requires from != ""
    ensures Replaced(s, from, to) == Join(Pieces(s, from), to)
    decreases |s|
  {
    var p := Find(s, from, 0);
    FoundFirst(s, from);
    if p.None? {
      ReplacedNone(s, from, to);
    } else {
      var head, rest := s[..p.value], s[p.value + |from|..];
      calc {
        Replaced(s, from, to);
        { ReplacedFirst(s, from, to, p.value); }
        head + to + Replaced(rest, from, to);
        { ReplacedIsJoin(rest, from, to); }
        head + to + Join(Pieces(rest, from), to);
        { JoinCons(head, Pieces(rest, from), to); }
        Join([head] + Pieces(rest, from), to);
        Join(Pieces(s, from), to);
      }
    }
  }

  lemma {:induction false} JoinLength(ps: seq<string>, from: string, to: string)
    requires ps != []
    ensures |Join(ps, to)| + (|ps| - 1) * |from| == |Join(ps, from)| + (|ps| - 1) * |to|
  {
    if |ps| > 1 {
      JoinLength(ps[1..], from, to);
      var k := |ps| - 2;
      assert k * |from| + |from| == (k + 1) * |from| && k * |to| + |to| == (k + 1) * |to|;
    }
  }

  /** The length of the result, from the number of occurrences that are replaced. */
  lemma {:induction false} ReplacedLength(s: string, from: string, to: string)
    requires from != ""
    ensures |Replaced(s, from, to)| == |s| + (|Pieces(s, from)| - 1) * |to| - (|Pieces(s, from)| - 1) * |from|
  {
    ReplacedIsJoin(s, from, to);
    PiecesLeftmost(s, from);
    JoinLength(Pieces(s, from), from, to);
  }

  /** What follows does not matter to an occurrence that is complete. */
  lemma OccursLonger(s: string, more: string, from: string, q: nat)
    requires q + |from| <= |s|
    ensures OccursAt(s + more, from, q) <==> OccursAt(s, from, q)
  {
    assert (s + more)[q..] == s[q..] + more;
  }

  lemma FirstLonger(head: string, from: string, rest: string)
    ensures FirstAt(head + from + rest, from, |head|) <==> FirstAt(head + from, from, |head|)
  {
    forall q | 0 <= q <= |head| ensures OccursAt(head + from + rest, from, q) <==> OccursAt(head + from, from, q) {
      OccursLonger(head + from, rest, from, q);
    }
  }

  lemma PiecesCut(head: string, from: string, rest: string)
    requires from != "" && FirstAt(head + from + rest, from, |head|)
    ensures Pieces(head + from + rest, from) == [head] + Pieces(rest, from)
  {
    FirstFound(head + from + rest, from, |head|);
    Spliced(head + from, rest);
    assert (head + from + rest)[..|head|] == head;
  }

  lemma LeftmostCons(p: string, ps: seq<string>, from: string)
    requires ps != []
    ensures Leftmost([p] + ps, from) <==> FirstAt(p + from, from, |p|) && Leftmost(ps, from)
  {
    var all := [p] + ps;
    assert forall i :: 0 <= i < |ps| ==> ps[i] == all[i + 1];
    if Leftmost(all, from) {
      assert FirstAt(all[0] + from, from, |all[0]|);
    }
  }

  /** The pieces are the only leftmost cut of the string. */
  lemma {:induction false} PiecesUnique(ps: seq<string>, from: string)
    requires from != "" && ps != [] && Leftmost(ps, from)
    ensures Pieces(Join(ps, from), from) == ps
  {
    if |ps| > 1 {
      var p, rest := ps[0], ps[1..];
      assert ps == [p] + rest;
      LeftmostCons(p, rest, from);
      JoinCons(p, rest, from);
      PiecesUnique(rest, from);
      FirstLonger(p, from, Join(rest, from));
      PiecesCut(p, from, Join(rest, from));
    } else {
      FoundFirst(ps[0], from);
      assert ps == [ps[0]];
    }
  }

  lemma CutAt(s: string, from: string, p: nat)
    requires OccursAt(s, from, p)
    ensures s == s[..p] + from + s[p + |from|..]
  {
    assert s == s[..p] + s[p..] && s[p..] == from + s[p..][|from|..];
    assert s[p..][|from|..] == s[p + |from|..];
  }

  lemma {:induction false} PiecesLeftmost(s: string, from: string)
    requires from != ""
    ensures Leftmost(Pieces(s, from), from) && Join(Pieces(s, from), from) == s
    decreases |s|
  {
    var p := Find(s, from, 0);
    FoundFirst(s, from);
    if p.Some? {
      var head, rest := s[..p.value], s[p.value + |from|..];
      PiecesLeftmost(rest, from);
      CutAt(s, from, p.value);
      FirstLonger(head, from, rest);
      LeftmostCons(head, Pieces(rest, from), from);
      JoinCons(head, Pieces(rest, from), from);
    }
  }

  // ---- the escape of log ids ----

  /** Replacing `%` by `%%` is undone by replacing `%%` by `%`. */
  lemma {:induction false} EscapeUndone(s: string)
    ensures Replaced(Replaced(s, "%", "%%"), "%%", "%") == s
    decreases |s|
  {
    if s != "" {
      var e, rest := Replaced(s, "%", "%%"), Replaced(s[1..], "%", "%%");
      EscapeUndone(s[1..]);
      assert "%" <= s <==> s[0] == '%';
      if s[0] == '%' {
        assert e == "%%" + rest && e[2..] == rest && "%%" <= e;
      } else {
        assert e == [s[0]] + rest && e[1..] == rest;
        assert "%%"[0] == '%' && e[0] == s[0];
      }
    }
  }

  lemma EscapeInjective(s: string, t: string)
    requires Replaced(s, "%", "%%") == Replaced(t, "%", "%%")
    ensures s == t
  {
    EscapeUndone(s);
    EscapeUndone(t);
  }
}
