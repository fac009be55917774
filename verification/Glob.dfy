/** The agent's wildcard match: its greedy loop and the usual recursive meaning. */
module Glob {

  // What a pattern means: '*' stands for any text, '?' for any character.

  predicate Matches(p: string, v: string)
    decreases |p| + |v|
  {
    if p == [] then v == []
    else if p[0] == '*' then Matches(p[1..], v) || (v != [] && Matches(p, v[1..]))
    else v != [] && Fits(p[0], v[0]) && Matches(p[1..], v[1..])
  }

  predicate Fits(c: char, d: char) { c == '?' || c == d }

  function LowerChar(c: char): char { if 'A' <= c <= 'Z' then (c as int + 32) as char else c }

  function Lower(s: string): (r: string)
    ensures |r| == |s|
    ensures forall i :: 0 <= i < |s| ==> r[i] == LowerChar(s[i])
  {
    seq(|s|, i requires 0 <= i < |s| => LowerChar(s[i]))
  }

  // The loop.

  /** Positions in the pattern and the text, the last star tried and where its text ends. */
  datatype Cursor = Cursor(pi: nat, vi: nat, star: int, mark: nat)

  predicate InRange(p: string, v: string, c: Cursor) {
    c.pi <= |p| && c.mark <= c.vi <= |v| && -1 <= c.star < c.pi
  }

  predicate Literal(p: string, v: string, c: Cursor)
    requires InRange(p, v, c)
  {
    c.vi < |v| && c.pi < |p| && Fits(p[c.pi], v[c.vi])
  }

  /** The answer from a position on. */
  predicate Greedy(p: string, v: string, c: Cursor)
    requires InRange(p, v, c)
    decreases |p| - c.star, |v| - c.mark, |v| - c.vi
  {
    if c.vi == |v| then AllStars(p[c.pi..])
    else if Literal(p, v, c) then Greedy(p, v, c.(pi := c.pi + 1, vi := c.vi + 1))
    else if c.pi < |p| && p[c.pi] == '*' then Greedy(p, v, Cursor(c.pi + 1, c.vi, c.pi, c.vi))
    else if c.star >= 0 then Greedy(p, v, Cursor(c.star + 1, c.mark + 1, c.star, c.mark + 1))
    else false
  }

  predicate AllStars(p: string) {
    p == [] || (p[0] == '*' && AllStars(p[1..]))
  }

  const BEGIN := Cursor(0, 0, -1, 0)

  predicate GlobMatch(pat: string, s: string) {
    Greedy(Lower(pat), Lower(s), BEGIN)
  }

  method Match(pat: string, s: string) returns (r: bool)
    ensures r == GlobMatch(pat, s)
  {
    hide Lower;
    var p, v := Lower(pat), Lower(s);
    var pi, vi, star, mark := 0, 0, -1, 0;
    while vi < |v|
      invariant InRange(p, v, Cursor(pi, vi, star, mark))
      invariant Greedy(p, v, Cursor(pi, vi, star, mark)) == Greedy(p, v, BEGIN)
      decreases |p| - star, |v| - mark, |v| - vi
    {
      if pi < |p| && (p[pi] == '?' || p[pi] == v[vi]) {
        pi, vi := pi + 1, vi + 1;
      } else if pi < |p| && p[pi] == '*' {
        star, pi := pi, pi + 1;
        mark := vi;
      } else if star != -1 {
        pi := star + 1;
        mark := mark + 1;
        vi := mark;
      } else {
        return false;
      }
    }
    while pi < |p| && p[pi] == '*'
      invariant pi <= |p|
      invariant AllStars(p[pi..]) == Greedy(p, v, BEGIN)
    {
      assert p[pi..][1..] == p[pi + 1..];
      pi := pi + 1;
    }
    return pi == |p|;
  }

  // A match is a match.

  lemma {:induction false} MatchesAppend(p: string, v: string, q: string, w: string)
    requires Matches(p, v) && Matches(q, w)
    ensures Matches(p + q, v + w)
    decreases |p| + |v|
  {
    if p == [] {
      assert p + q == q && v + w == w;
    } else if p[0] == '*' {
      if Matches(p[1..], v) {
        MatchesAppend(p[1..], v, q, w);
        assert (p + q)[1..] == p[1..] + q;
      } else {
        MatchesAppend(p, v[1..], q, w);
        assert (v + w)[1..] == v[1..] + w;
      }
    } else {
      MatchesAppend(p[1..], v[1..], q, w);
      assert (p + q)[1..] == p[1..] + q && (v + w)[1..] == v[1..] + w;
    }
  }

  lemma {:induction false} StarsMatchNothing(p: string)
    ensures AllStars(p) <==> Matches(p, [])
    decreases |p|
  {
    if p != [] {
      StarsMatchNothing(p[1..]);
    }
  }

  /** A star takes one character more. */
  lemma {:induction false} StarTakes(p: string, v: string, d: char)
    requires p != [] && p[|p| - 1] == '*' && Matches(p, v)
    ensures Matches(p, v + [d])
    decreases |p| + |v|
  {
    if p[0] == '*' {
      if Matches(p[1..], v) {
        if |p| == 1 {
          assert v == [];
          assert ([d])[1..] == [] && Matches(p, []) && v + [d] == [d];
        } else {
          StarTakes(p[1..], v, d);
        }
      } else {
        StarTakes(p, v[1..], d);
        assert (v + [d])[1..] == v[1..] + [d];
      }
    } else {
      StarTakes(p[1..], v[1..], d);
      assert (v + [d])[1..] == v[1..] + [d];
    }
  }

  /** What has been read of the text matches what has been read of the pattern. */
  ghost predicate ReadMatches(p: string, v: string, c: Cursor)
    requires InRange(p, v, c)
  {
    && Matches(p[..c.pi], v[..c.vi])
    && (c.star >= 0 ==> p[c.star] == '*' && Matches(p[..c.star + 1], v[..c.mark]))
  }

  lemma {:induction false} GreedySound(p: string, v: string, c: Cursor)
    requires InRange(p, v, c) && ReadMatches(p, v, c) && Greedy(p, v, c)
    ensures Matches(p, v)
    decreases |p| - c.star, |v| - c.mark, |v| - c.vi
  {
    hide Matches, AllStars;
    if c.vi == |v| {
      StarsMatchNothing(p[c.pi..]);
      MatchesAppend(p[..c.pi], v[..c.vi], p[c.pi..], []);
      assert p[..c.pi] + p[c.pi..] == p && v[..c.vi] + [] == v;
    } else if Literal(p, v, c) {
      ReadOne(p, v, c);
      GreedySound(p, v, c.(pi := c.pi + 1, vi := c.vi + 1));
    } else if c.pi < |p| && p[c.pi] == '*' {
      ReadStar(p, v, c);
      GreedySound(p, v, Cursor(c.pi + 1, c.vi, c.pi, c.vi));
    } else {
      StarTakes(p[..c.star + 1], v[..c.mark], v[c.mark]);
      assert v[..c.mark] + [v[c.mark]] == v[..c.mark + 1];
      GreedySound(p, v, Cursor(c.star + 1, c.mark + 1, c.star, c.mark + 1));
    }
  }

  lemma {:induction false} ReadOne(p: string, v: string, c: Cursor)
    requires InRange(p, v, c) && Literal(p, v, c) && Matches(p[..c.pi], v[..c.vi])
    ensures Matches(p[..c.pi + 1], v[..c.vi + 1])
  {
    OneFits(p[c.pi], v[c.vi]);
    MatchesAppend(p[..c.pi], v[..c.vi], [p[c.pi]], [v[c.vi]]);
    assert p[..c.pi + 1] == p[..c.pi] + [p[c.pi]] && v[..c.vi + 1] == v[..c.vi] + [v[c.vi]];
  }

  /** A star that meets a star in the text may take it. */
  lemma {:induction false} OneFits(c: char, d: char)
    requires Fits(c, d)
    ensures Matches([c], [d])
  {
    assert Matches([], []);
    if c == '*' {
      assert Matches([c], []);
      assert [d][1..] == [];
    } else {
      assert [c][1..] == [] && [d][1..] == [];
    }
  }

  lemma {:induction false} ReadStar(p: string, v: string, c: Cursor)
    requires InRange(p, v, c) && c.pi < |p| && p[c.pi] == '*' && Matches(p[..c.pi], v[..c.vi])
    ensures Matches(p[..c.pi + 1], v[..c.vi])
  {
    StarsMatchNothing(['*']);
    assert ['*'][1..] == [];
    MatchesAppend(p[..c.pi], v[..c.vi], ['*'], []);
    assert p[..c.pi + 1] == p[..c.pi] + ['*'] && v[..c.vi] + [] == v[..c.vi];
  }

  /** Whatever the pattern and the text, a positive answer is right. */
  lemma {:induction false} Sound(pat: string, s: string)
    requires GlobMatch(pat, s)
    ensures Matches(Lower(pat), Lower(s))
  {
    assert Matches(Lower(pat)[..0], Lower(s)[..0]);
    GreedySound(Lower(pat), Lower(s), BEGIN);
  }

  // A match is found, unless a star can be taken for a literal.

  ghost predicate NoStarMeetsStar(p: string, v: string) { '*' !in p || '*' !in v }

  predicate OneToOne(q: string, w: string) {
    |q| == |w| && forall i :: 0 <= i < |q| ==> q[i] != '*' && Fits(q[i], w[i])
  }

  /** The pattern since the last star, read one to one against the text since its mark. */
  ghost predicate Aligned(p: string, v: string, c: Cursor)
    requires InRange(p, v, c)
  {
    if c.star < 0 then Matches(p[c.pi..], v[c.vi..])
    else
      p[c.star] == '*' && OneToOne(p[c.star + 1..c.pi], v[c.mark..c.vi]) && Matches(p[c.star..], v[c.mark..])
  }

  lemma {:induction false} PlainPrefix(q: string, r: string, y: string)
    requires '*' !in q && Matches(q + r, y)
    ensures |y| >= |q| && Matches(r, y[|q|..])
    decreases |q|
  {
    if q == [] {
      assert q + r == r && y[0..] == y;
    } else {
      assert (q + r)[1..] == q[1..] + r;
      PlainPrefix(q[1..], r, y[1..]);
      assert y[1..][|q| - 1..] == y[|q|..];
    }
  }

  lemma {:induction false} StarAbsorbs(q: string, y: string, i: nat)
    requires q != [] && q[0] == '*' && i <= |y| && Matches(q, y[i..])
    ensures Matches(q, y)
    decreases i
  {
    if i == 0 {
      assert y[0..] == y;
    } else {
      assert y[1..][i - 1..] == y[i..];
      StarAbsorbs(q, y[1..], i - 1);
    }
  }

  /** What a star stands for. */
  lemma {:induction false} StarLength(q: string, y: string) returns (k: nat)
    requires q != [] && q[0] == '*' && Matches(q, y)
    ensures k <= |y| && Matches(q[1..], y[k..])
    decreases |y|
  {
    if Matches(q[1..], y) {
      k := 0;
      assert y[0..] == y;
    } else {
      k := StarLength(q, y[1..]);
      assert y[1..][k..] == y[k + 1..];
      k := k + 1;
    }
  }

  /** From an aligned position with a star, the rest of the pattern matches further on. */
  lemma {:induction false} AlignedRest(p: string, v: string, c: Cursor) returns (k: nat)
    requires InRange(p, v, c) && c.star >= 0 && Aligned(p, v, c)
    ensures c.vi + k <= |v| && Matches(p[c.pi..], v[c.vi + k..])
    ensures k > 0 ==> Matches(p[c.star..], v[c.mark + 1..])
  {
    hide Matches;
    k := StarLength(p[c.star..], v[c.mark..]);
    var q := p[c.star + 1..c.pi];
    assert p[c.star..][1..] == q + p[c.pi..];
    assert v[c.mark..][k..] == v[c.mark + k..];
    PlainPrefix(q, p[c.pi..], v[c.mark + k..]);
    assert v[c.mark + k..][|q|..] == v[c.vi + k..];
    if k > 0 {
      StarSkips(p[c.star..], v[c.mark + k..]);
      assert v[c.mark + 1..][k - 1..] == v[c.mark + k..];
      StarAbsorbs(p[c.star..], v[c.mark + 1..], k - 1);
    }
  }

  lemma {:induction false} StarSkips(q: string, y: string)
    requires q != [] && q[0] == '*' && Matches(q[1..], y)
    ensures Matches(q, y)
  {
  }

  lemma {:induction false} GreedyComplete(p: string, v: string, c: Cursor)
    requires NoStarMeetsStar(p, v) && InRange(p, v, c) && Aligned(p, v, c)
    ensures Greedy(p, v, c)
    decreases |p| - c.star, |v| - c.mark, |v| - c.vi
  {
    hide Matches, AllStars, NoStarMeetsStar, Aligned, Fits;
    var k := Remaining(p, v, c);
    if c.vi == |v| {
      assert v[c.vi..] == [] && v[c.vi + k..] == [];
      StarsMatchNothing(p[c.pi..]);
    } else if Literal(p, v, c) {
      AlignedLiteral(p, v, c);
      GreedyComplete(p, v, c.(pi := c.pi + 1, vi := c.vi + 1));
    } else if c.pi < |p| && p[c.pi] == '*' {
      AlignedStar(p, v, c, k);
      GreedyComplete(p, v, Cursor(c.pi + 1, c.vi, c.pi, c.vi));
    } else {
      Stuck(p, v, c);
      assert k > 0;
      AlignedBack(p, v, c);
      GreedyComplete(p, v, Cursor(c.star + 1, c.mark + 1, c.star, c.mark + 1));
    }
  }

  lemma {:induction false} Remaining(p: string, v: string, c: Cursor) returns (k: nat)
    requires InRange(p, v, c) && Aligned(p, v, c)
    ensures c.vi + k <= |v| && Matches(p[c.pi..], v[c.vi + k..])
    ensures k > 0 ==> c.star >= 0 && p[c.star] == '*' && Matches(p[c.star..], v[c.mark + 1..])
  {
    hide Matches;
    if c.star >= 0 { k := AlignedRest(p, v, c); } else { k := 0; }
  }

  lemma {:induction false} AlignedStar(p: string, v: string, c: Cursor, k: nat)
    requires InRange(p, v, c) && c.pi < |p| && p[c.pi] == '*'
    requires c.vi + k <= |v| && Matches(p[c.pi..], v[c.vi + k..])
    ensures Aligned(p, v, Cursor(c.pi + 1, c.vi, c.pi, c.vi))
  {
    hide Matches;
    assert v[c.vi..][k..] == v[c.vi + k..];
    StarAbsorbs(p[c.pi..], v[c.vi..], k);
  }

  lemma {:induction false} AlignedBack(p: string, v: string, c: Cursor)
    requires InRange(p, v, c) && c.vi < |v| && c.star >= 0 && p[c.star] == '*' && Matches(p[c.star..], v[c.mark + 1..])
    ensures Aligned(p, v, Cursor(c.star + 1, c.mark + 1, c.star, c.mark + 1))
  {
    hide Matches;
  }

  lemma {:induction false} AlignedLiteral(p: string, v: string, c: Cursor)
    requires NoStarMeetsStar(p, v) && InRange(p, v, c) && Aligned(p, v, c) && Literal(p, v, c)
    ensures Aligned(p, v, c.(pi := c.pi + 1, vi := c.vi + 1))
  {
    assert p[c.pi] in p && v[c.vi] in v;
    if c.star < 0 {
      assert p[c.pi..][1..] == p[c.pi + 1..] && v[c.vi..][1..] == v[c.vi + 1..];
    } else {
      hide Matches;
      assert p[c.star + 1..c.pi + 1] == p[c.star + 1..c.pi] + [p[c.pi]];
      assert v[c.mark..c.vi + 1] == v[c.mark..c.vi] + [v[c.vi]];
    }
  }

  /** Where neither a character nor a star fits, nothing matches. */
  lemma {:induction false} Stuck(p: string, v: string, c: Cursor)
    requires InRange(p, v, c) && c.vi < |v| && !Literal(p, v, c) && !(c.pi < |p| && p[c.pi] == '*')
    ensures !Matches(p[c.pi..], v[c.vi..])
  {
  }

  /** The answer is right both ways unless both the pattern and the text have a star. */
  lemma {:induction false} Exact(pat: string, s: string)
    requires '*' !in pat || '*' !in s
    ensures GlobMatch(pat, s) <==> Matches(Lower(pat), Lower(s))
  {
    if Matches(Lower(pat), Lower(s)) {
      var p, v := Lower(pat), Lower(s);
      assert p[0..] == p && v[0..] == v;
      LowerStars(pat);
      LowerStars(s);
      GreedyComplete(p, v, BEGIN);
    }
    if GlobMatch(pat, s) {
      Sound(pat, s);
    }
  }

  lemma {:induction false} LowerStars(s: string)
    ensures '*' in Lower(s) ==> '*' in s
  {
    if '*' in Lower(s) {
      var i :| 0 <= i < |s| && Lower(s)[i] == '*';
      assert s[i] == '*';
    }
  }

  // Case.

  /** The same letter, or the same other character. */
  predicate SameLetter(c: char, d: char) {
    || c == d
    || ('A' <= c <= 'Z' && d as int == c as int + 32)
    || ('A' <= d <= 'Z' && c as int == d as int + 32)
  }

  predicate SameLetters(s: string, t: string) {
    |s| == |t| && forall i :: 0 <= i < |s| ==> SameLetter(s[i], t[i])
  }

  /** Patterns and texts that differ in the case of letters only are answered alike. */
  lemma {:induction false} IgnoresCase(pat: string, pat': string, s: string, s': string)
    requires SameLetters(pat, pat') && SameLetters(s, s')
    ensures GlobMatch(pat, s) == GlobMatch(pat', s')
  {
    hide Greedy;
    assert Lower(pat) == Lower(pat') && Lower(s) == Lower(s');
  }

  /** A pattern of one character matches a text of one character when it is a wildcard or the same
      letter. */
  lemma {:induction false} OneCharacter(c: char, d: char)
    ensures GlobMatch([c], [d]) <==> c == '*' || c == '?' || SameLetter(c, d)
  {
    hide Greedy;
    var p, v := Lower([c]), Lower([d]);
    assert p == [LowerChar(c)] && v == [LowerChar(d)];
    assert p[1..] == [] && v[1..] == [];
    if c == '*' && d == '*' {
      GreedyAdvances(p, v, 1);
      StarForStar(p, v);
    } else {
      Exact([c], [d]);
      assert Matches(p[1..], []) && (Matches(p[1..], v) <==> false);
    }
  }

  lemma {:induction false} StarForStar(p: string, v: string)
    requires |p| == |v| == 1
    ensures Greedy(p, v, Cursor(1, 1, -1, 0))
  {
    assert p[1..] == [];
  }

  // Where it is wrong.

  /** The pattern and the text agree, character for character, up to the position. */
  lemma {:induction false} GreedyAdvances(p: string, v: string, n: nat)
    requires n <= |p| && n <= |v| && forall i :: 0 <= i < n ==> Fits(p[i], v[i])
    ensures Greedy(p, v, BEGIN) == Greedy(p, v, Cursor(n, n, -1, 0))
    decreases n
  {
    hide AllStars;
    if n > 0 {
      GreedyAdvances(p, v, n - 1);
      assert Literal(p, v, Cursor(n - 1, n - 1, -1, 0));
    }
  }

  /** Without a star the lengths must agree. */
  lemma {:induction false} GreedyLengths(p: string, v: string, c: Cursor)
    requires InRange(p, v, c) && c.star == -1 && c.mark == 0
    requires '*' !in p[c.pi..] && |p| - c.pi != |v| - c.vi
    ensures !Greedy(p, v, c)
    decreases |v| - c.vi
  {
    if c.vi < |v| && Literal(p, v, c) {
      assert p[c.pi..][1..] == p[c.pi + 1..];
      GreedyLengths(p, v, c.(pi := c.pi + 1, vi := c.vi + 1));
    } else if c.pi < |p| {
      assert p[c.pi] in p[c.pi..];
    }
  }

  function Questions(n: nat): (q: string)
    ensures |q| == n && forall i :: 0 <= i < n ==> q[i] == '?'
  {
    seq(n, _ => '?')
  }

  lemma {:induction false} QuestionsMatch(v: string)
    ensures Matches(Questions(|v|), v)
    decreases |v|
  {
    if v != [] {
      QuestionsMatch(v[1..]);
      assert Questions(|v|)[1..] == Questions(|v| - 1);
    }
  }

  lemma {:induction false} SelfMatches(p: string)
    ensures Matches(p, p)
    decreases |p|
  {
    if p != [] {
      SelfMatches(p[1..]);
      OneFits(p[0], p[0]);
      MatchesAppend([p[0]], [p[0]], p[1..], p[1..]);
      assert [p[0]] + p[1..] == p;
    }
  }

  lemma {:induction false} LeftOver(v: string, k: nat)
    requires k < |v| && v[k] == '*'
    ensures
      var p := v[..k] + (['*'] + Questions(|v| - k));
      Matches(p, v) && !Greedy(p, v, BEGIN)
  {
    hide Matches, Greedy;
    var tail := ['*'] + Questions(|v| - k);
    var p := v[..k] + tail;
    SelfMatches(v[..k]);
    QuestionsMatch(v[k..]);
    assert tail[1..] == Questions(|v| - k);
    StarSkips(tail, v[k..]);
    MatchesAppend(v[..k], v[..k], tail, v[k..]);
    assert v[..k] + v[k..] == v;
    GreedyAdvances(p, v, k + 1);
    assert p[k + 1..] == Questions(|v| - k);
    GreedyLengths(p, v, Cursor(k + 1, k + 1, -1, 0));
  }

  /** For every text with a star some pattern that matches it is turned down. */
  lemma {:induction false} MissedPattern(s: string) returns (pat: string)
    requires '*' in s
    ensures Matches(Lower(pat), Lower(s)) && !GlobMatch(pat, s)
  {
    hide Matches, Greedy;
    var k :| 0 <= k < |s| && s[k] == '*';
    pat := s[..k] + (['*'] + Questions(|s| - k));
    LeftOver(Lower(s), k);
    assert Lower(pat) == Lower(s)[..k] + (['*'] + Questions(|s| - k));
  }

  lemma {:induction false} LastStar(s: string) returns (k: nat)
    requires '*' in s
    ensures k < |s| && s[k] == '*' && '*' !in s[k + 1..]
    decreases |s|
  {
    var n := |s| - 1;
    if s[n] == '*' {
      k := n;
    } else {
      assert s == s[..n] + [s[n]];
      k := LastStar(s[..n]);
      assert s[k + 1..] == s[..n][k + 1..] + [s[n]];
    }
  }

  lemma {:induction false} OneTooMany(p: string, k: nat)
    requires k < |p| && p[k] == '*' && '*' !in p[k + 1..]
    ensures
      var v := (p[..k + 1] + ['-']) + p[k + 1..];
      Matches(p, v) && !Greedy(p, v, BEGIN)
  {
    hide Matches, Greedy;
    var v := (p[..k + 1] + ['-']) + p[k + 1..];
    SelfMatches(p[..k + 1]);
    StarTakes(p[..k + 1], p[..k + 1], '-');
    SelfMatches(p[k + 1..]);
    MatchesAppend(p[..k + 1], p[..k + 1] + ['-'], p[k + 1..], p[k + 1..]);
    assert p[..k + 1] + p[k + 1..] == p;
    GreedyAdvances(p, v, k + 1);
    GreedyLengths(p, v, Cursor(k + 1, k + 1, -1, 0));
  }

  /** For every pattern with a star some text that it matches is turned down. */
  lemma {:induction false} MissedText(pat: string) returns (s: string)
    requires '*' in pat
    ensures Matches(Lower(pat), Lower(s)) && !GlobMatch(pat, s)
  {
    hide Matches, Greedy;
    var p := Lower(pat);
    var k := LastStar(pat);
    s := pat[..k + 1] + ['-'] + pat[k + 1..];
    LowerTail(pat, k);
    OneTooMany(p, k);
    assert Lower(s) == (p[..k + 1] + ['-']) + p[k + 1..];
  }

  lemma {:induction false} LowerTail(s: string, k: nat)
    requires k < |s| && s[k] == '*' && '*' !in s[k + 1..]
    ensures Lower(s)[k] == '*' && '*' !in Lower(s)[k + 1..]
  {
    assert Lower(s)[k + 1..] == Lower(s[k + 1..]);
    LowerStars(s[k + 1..]);
  }

  /** The texts on which every pattern is answered right are those without a star, and the
      patterns that are answered right on every text are those without one. */
  lemma {:induction false} RightExactlyWithoutStars(x: string)
    ensures (forall pat :: GlobMatch(pat, x) <==> Matches(Lower(pat), Lower(x))) <==> '*' !in x
    ensures (forall s :: GlobMatch(x, s) <==> Matches(Lower(x), Lower(s))) <==> '*' !in x
  {
    hide Matches, GlobMatch;
    if '*' in x {
      var pat := MissedPattern(x);
      var s := MissedText(x);
    } else {
      forall y ensures GlobMatch(y, x) <==> Matches(Lower(y), Lower(x)) { Exact(y, x); }
      forall y ensures GlobMatch(x, y) <==> Matches(Lower(x), Lower(y)) { Exact(x, y); }
    }
  }
}
