/**
 * The one regular expression the SQL-exception handler compiles,
 * `\((.*?)\)=\((.*?)\)`, run with `Matcher.find()` over the detail text of a
 * PostgreSQL error such as `Key (username)=(zhangsan) already exists.`.
 *
 * Two views of the same matcher:
 *  - a specification: `MatchesAt` says which (start, group-1 length,
 *    group-2 length) triples the pattern accepts, and `FirstMatch` picks the
 *    one `find()` reports — the leftmost start, then, because both groups are
 *    lazy, the shortest group 1 for which the rest can match, then the
 *    shortest group 2;
 *  - the backtracking search itself (`LazyValue`, `LazyName`, `FindFrom`,
 *    `Find`), whose contracts tie every answer to the specification.
 */
module DetailPattern {
  import opened Nullable

  /** The characters `.` refuses without DOTALL or UNIX_LINES. */
  predicate IsLineTerminator(c: char) {
    c == '\n' || c == '\r' || c == '\U{85}' || c == '\U{2028}' || c == '\U{2029}'
  }

  /** `s[a..b]` can be consumed by `.*?`. */
  predicate DotRun(s: string, a: nat, b: nat) {
    a <= b <= |s| && forall x :: a <= x < b ==> !IsLineTerminator(s[x])
  }

  /** The literal `)=(` between the two groups starts at `p`. */
  predicate Delimiter(s: string, p: nat) {
    p + 3 <= |s| && s[p] == ')' && s[p + 1] == '=' && s[p + 2] == '('
  }

  /** `(.*?)\)` with a group of length `m` starting at `j`. */
  ghost predicate ValueMatches(s: string, j: nat, m: nat) {
    j + m < |s| && DotRun(s, j, j + m) && s[j + m] == ')'
  }

  /** Everything after the opening `\(`, with group 1 of length `k` starting at `a`. */
  ghost predicate Tail(s: string, a: nat, k: nat, m: nat) {
    DotRun(s, a, a + k) && Delimiter(s, a + k) && ValueMatches(s, a + k + 3, m)
  }

  /** The whole pattern matches at `i` with groups of lengths `k` and `m`. */
  ghost predicate MatchesAt(s: string, i: nat, k: nat, m: nat) {
    i < |s| && s[i] == '(' && Tail(s, i + 1, k, m)
  }

  /** No match starts in `[from, i)`, and `(i, k, m)` is the first match at `i` in lazy order. */
  ghost predicate Earliest(s: string, from: nat, i: nat, k: nat, m: nat) {
    && MatchesAt(s, i, k, m)
    && (forall i': nat, k': nat, m': nat :: from <= i' < i ==> !MatchesAt(s, i', k', m'))
    && (forall k': nat, m': nat :: k' < k ==> !MatchesAt(s, i, k', m'))
    && (forall m': nat :: m' < m ==> !MatchesAt(s, i, k, m'))
  }

  /** The match `find()` reports on a fresh matcher. */
  ghost predicate FirstMatch(s: string, i: nat, k: nat, m: nat) {
    Earliest(s, 0, i, k, m)
  }

  ghost predicate NoMatch(s: string) {
    forall i: nat, k: nat, m: nat :: !MatchesAt(s, i, k, m)
  }

  /** What `find()` leaves in the matcher: the start and the two groups. */
  datatype Match = Match(start: nat, group1: string, group2: string)

  /** `mt`'s groups are the slices of `s` that a match at `mt.start` captures. */
  ghost predicate Captures(s: string, mt: Match) {
    var a := mt.start + 1;
    var j := a + |mt.group1| + 3;
    && j + |mt.group2| <= |s|
    && mt.group1 == s[a..a + |mt.group1|]
    && mt.group2 == s[j..j + |mt.group2|]
  }

  /** Lazy group 2 starting at `j`: the length of the group before the first `)`,
    * unless a line terminator or the end of the text comes first. */
  function LazyValue(s: string, j: nat): (r: Option<nat>)
    requires j <= |s|
    decreases |s| - j
    ensures r.Some? ==> ValueMatches(s, j, r.value)
    ensures r.Some? ==> forall m: nat :: m < r.value ==> !ValueMatches(s, j, m)
    ensures r.None? ==> forall m: nat :: !ValueMatches(s, j, m)
  {
    if j == |s| then None
    else if s[j] == ')' then Some(0)
    else if IsLineTerminator(s[j]) then None
    else
      var rest := LazyValue(s, j + 1);
      assert forall m: nat {:trigger ValueMatches(s, j, m)} :: 1 <= m && ValueMatches(s, j, m) ==> ValueMatches(s, j + 1, m - 1);
      if rest.Some? then Some(rest.value + 1) else None
  }

  /** Lazy group 1 starting at `a`, having already consumed `k` characters:
    * try the rest of the pattern after `k` characters, and only when it fails
    * consume one more character. */
  function LazyName(s: string, a: nat, k: nat): (r: Option<(nat, nat)>)
    requires DotRun(s, a, a + k)
    decreases |s| - (a + k)
    ensures r.Some? ==> k <= r.value.0 && Tail(s, a, r.value.0, r.value.1)
    ensures r.Some? ==> forall k': nat, m: nat :: k <= k' < r.value.0 ==> !Tail(s, a, k', m)
    ensures r.Some? ==> forall m: nat :: m < r.value.1 ==> !Tail(s, a, r.value.0, m)
    ensures r.None? ==> forall k': nat, m: nat :: k <= k' ==> !Tail(s, a, k', m)
  {
    var p := a + k;
    var value := if Delimiter(s, p) then LazyValue(s, p + 3) else None;
    if value.Some? then Some((k, value.value))
    else if p == |s| || IsLineTerminator(s[p]) then None
    else LazyName(s, a, k + 1)
  }

  /** `find()` trying start positions `i`, `i + 1`, ... in turn. */
  function FindFrom(s: string, i: nat): (r: Option<Match>)
    requires i <= |s|
    decreases |s| - i
    ensures r.Some? ==> i <= r.value.start && Captures(s, r.value)
    ensures r.Some? ==> Earliest(s, i, r.value.start, |r.value.group1|, |r.value.group2|)
    ensures r.None? ==> forall i': nat, k: nat, m: nat :: i <= i' ==> !MatchesAt(s, i', k, m)
  {
    if i == |s| then None
    else
      var here := if s[i] == '(' then LazyName(s, i + 1, 0) else None;
      if here.Some? then
        var k, m := here.value.0, here.value.1;
        Some(Match(i, s[i + 1..i + 1 + k], s[i + 4 + k..i + 4 + k + m]))
      else
        FindFrom(s, i + 1)
  }

  /** `Pattern.compile("\\((.*?)\\)=\\((.*?)\\)").matcher(s).find()` and its groups. */
  function Find(s: string): (r: Option<Match>)
    ensures r.Some? <==> !NoMatch(s)
    ensures r.Some? ==> FirstMatch(s, r.value.start, |r.value.group1|, |r.value.group2|)
    ensures r.Some? ==> Captures(s, r.value)
    ensures r.Some? ==> ')' !in r.value.group2
    ensures r.Some? ==> forall x :: 0 <= x < |r.value.group1| ==> !IsLineTerminator(r.value.group1[x])
    ensures r.Some? ==> forall x :: 0 <= x < |r.value.group2| ==> !IsLineTerminator(r.value.group2[x])
  {
    var r := FindFrom(s, 0);
    if r.None? then r
    else
      var i, k, m := r.value.start, |r.value.group1|, |r.value.group2|;
      assert ')' !in r.value.group2 by {
        forall x | 0 <= x < m ensures r.value.group2[x] != ')' {
          assert !MatchesAt(s, i, k, x);
        }
      }
      r
  }

  /** `c` holds no `)=(`, so a lazy group 1 cannot stop inside it. */
  predicate NoDelimiter(c: string) {
    forall x: nat :: x < |c| ==> !Delimiter(c, x)
  }

  /** The detail text PostgreSQL writes for a unique violation, `p(c)=(v)q`. */
  function KeyDetail(p: string, c: string, v: string, q: string): string {
    p + "(" + c + ")=(" + v + ")" + q
  }

  /** Two first matches of one text are the same match. */
  lemma FirstMatchUnique(s: string, i: nat, k: nat, m: nat, i': nat, k': nat, m': nat)
    requires FirstMatch(s, i, k, m) && FirstMatch(s, i', k', m')
    ensures i == i' && k == k' && m == m'
  {
  }

  /** Where each part of `KeyDetail(p, c, v, q)` sits. */
  lemma KeyDetailLayout(p: string, c: string, v: string, q: string)
    ensures var s, a, j := KeyDetail(p, c, v, q), |p| + 1, |p| + 4 + |c|;
      && |s| == j + |v| + 1 + |q|
      && (forall x :: 0 <= x < |p| ==> s[x] == p[x])
      && s[|p|] == '('
      && (forall x :: 0 <= x < |c| ==> s[a + x] == c[x])
      && s[a + |c|] == ')' && s[a + |c| + 1] == '=' && s[a + |c| + 2] == '('
      && (forall x :: 0 <= x < |v| ==> s[j + x] == v[x])
      && s[j + |v|] == ')'
  {
  }

  /** The pattern accepts `KeyDetail(p, c, v, q)` at `|p|` with groups `c` and `v`. */
  lemma KeyDetailMatches(p: string, c: string, v: string, q: string)
    requires DotRun(c, 0, |c|) && DotRun(v, 0, |v|)
    ensures MatchesAt(KeyDetail(p, c, v, q), |p|, |c|, |v|)
  {
  }

  /** ... and no match comes before it in the order `find()` tries them. */
  lemma KeyDetailFirst(p: string, c: string, v: string, q: string)
    requires '(' !in p
    requires DotRun(c, 0, |c|) && NoDelimiter(c)
    requires DotRun(v, 0, |v|) && ')' !in v
    ensures FirstMatch(KeyDetail(p, c, v, q), |p|, |c|, |v|)
  {
    var s := KeyDetail(p, c, v, q);
    var i, k, m := |p|, |c|, |v|;
    var a, j := i + 1, i + 4 + k;
    KeyDetailLayout(p, c, v, q);
    KeyDetailMatches(p, c, v, q);
    forall i': nat, k': nat, m': nat | i' < i ensures !MatchesAt(s, i', k', m') {
      assert s[i'] == p[i'];
    }
    forall k': nat, m': nat | k' < k ensures !MatchesAt(s, i, k', m') {
      if k' + 3 <= k {
        assert !Delimiter(c, k');
        assert s[a + k'] == c[k'] && s[a + (k' + 1)] == c[k' + 1] && s[a + (k' + 2)] == c[k' + 2];
      } else if k' + 2 == k {
        assert s[a + k' + 2] == ')';
      } else {
        assert s[a + k' + 1] == ')';
      }
    }
    forall m': nat | m' < m ensures !MatchesAt(s, i, k, m') {
      assert s[j + m'] == v[m'];
    }
  }

  /** When the prefix opens no parenthesis, the column text holds no `)=(`
    * and no line terminator, and the value holds no `)` and no line terminator,
    * `find()` captures exactly the column and the value, whatever follows. */
  lemma FindKeyDetail(p: string, c: string, v: string, q: string)
    requires '(' !in p
    requires DotRun(c, 0, |c|) && NoDelimiter(c)
    requires DotRun(v, 0, |v|) && ')' !in v
    ensures Find(KeyDetail(p, c, v, q)) == Some(Match(|p|, c, v))
  {
    var s := KeyDetail(p, c, v, q);
    var a, j := |p| + 1, |p| + 4 + |c|;
    KeyDetailFirst(p, c, v, q);
    var r := Find(s);
    FirstMatchUnique(s, r.value.start, |r.value.group1|, |r.value.group2|, |p|, |c|, |v|);
    KeyDetailLayout(p, c, v, q);
    assert s[a..a + |c|] == c;
    assert s[j..j + |v|] == v;
  }
}
