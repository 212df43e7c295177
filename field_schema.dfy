/**
 * The field-schema extractor of `MacAICleaner` (mac_ai_cleaner.py:239-254):
 * the rule template is scanned for bulleted `label:` items with the pattern
 * `[-*]\s*([^\n:：]+?)\s*[:：]`, every captured label is cleaned by
 * `clean_field_name`, and the non-empty cleaned labels are kept once each, in
 * the order in which they first appear.
 *
 * Python's `\w` depends on Unicode tables; it is left abstract as a parameter
 * `word` of type `WordClass`. The ideograph range U+4E00..U+9FA5 that the
 * cleaning pattern names explicitly is concrete.
 */
module FieldSchema {
  import opened Wrappers
  import opened Text

  /** Stands for the character class `\w` of Python's `re` module. */
  type WordClass = char -> bool

  /**
   * What is known of `\w` without Unicode tables: no whitespace character and
   * neither colon is a word character.
   */
  ghost predicate SaneWordClass(word: WordClass)
  {
    forall c :: word(c) ==> !IsSpace(c) && !IsColon(c)
  }

  /** The range `一-龥` of the cleaning pattern. */
  predicate IsCjk(c: char)
  {
    '\U{4E00}' <= c <= '\U{9FA5}'
  }

  /** The characters `[^\w一-龥]` does NOT match, i.e. those cleaning keeps. */
  predicate Kept(word: WordClass, c: char)
  {
    word(c) || IsCjk(c)
  }

  /** `re.sub(r'[^\w一-龥]', '', s)`: delete every character cleaning does not keep. */
  function KeepWordChars(word: WordClass, s: string): (r: string)
    ensures |r| <= |s|
    ensures forall k :: 0 <= k < |r| ==> Kept(word, r[k])
    ensures (forall k :: 0 <= k < |s| ==> Kept(word, s[k])) ==> r == s
    decreases |s|
  {
    if s == [] then []
    else if Kept(word, s[0]) then [s[0]] + KeepWordChars(word, s[1..])
    else KeepWordChars(word, s[1..])
  }

  /** `clean_field_name` (mac_ai_cleaner.py:252-254), also inlined at line 246. */
  function CleanFieldName(word: WordClass, s: string): (r: string)
    ensures forall k :: 0 <= k < |r| ==> Kept(word, r[k])
    ensures IsStripped(r)
  {
    var kept := KeepWordChars(word, s);
    StripIsStripped(kept);
    Strip(kept)
  }

  /** Deleting characters works piece by piece: filtering distributes over concatenation. */
  lemma {:induction false} KeepWordCharsAppend(word: WordClass, a: string, b: string)
    ensures KeepWordChars(word, a + b) == KeepWordChars(word, a) + KeepWordChars(word, b)
    decreases |a|
  {
    if a == [] {
      assert a + b == b;
    } else {
      assert (a + b)[1..] == a[1..] + b;
      KeepWordCharsAppend(word, a[1..], b);
    }
  }

  /** A single character survives exactly when cleaning keeps it. */
  lemma KeepWordCharsOne(word: WordClass, c: char)
    ensures KeepWordChars(word, [c]) == if Kept(word, c) then [c] else []
  {
  }

  /** With a sane `\w` nothing kept is whitespace, so cleaning is exactly the deletion. */
  lemma CleanFieldNameIsFilter(word: WordClass, s: string)
    requires SaneWordClass(word)
    ensures CleanFieldName(word, s) == KeepWordChars(word, s)
  {
    var kept := KeepWordChars(word, s);
    forall k | 0 <= k < |kept|
      ensures !IsSpace(kept[k])
    {
      assert Kept(word, kept[k]);
    }
    NoSpaceIsStripped(kept);
  }

  /** Cleaning a cleaned name changes nothing. */
  lemma CleanFieldNameIdempotent(word: WordClass, s: string)
    ensures CleanFieldName(word, CleanFieldName(word, s)) == CleanFieldName(word, s)
  {
    var r := CleanFieldName(word, s);
    assert KeepWordChars(word, r) == r;
    StrippedIsFixed(r);
  }

  /** With a sane `\w`, a cleaned name holds no whitespace and no colon of either width. */
  lemma CleanFieldNameHasNoSeparators(word: WordClass, s: string)
    requires SaneWordClass(word)
    ensures forall k :: 0 <= k < |CleanFieldName(word, s)| ==>
              !IsSpace(CleanFieldName(word, s)[k]) && !IsColon(CleanFieldName(word, s)[k])
  {
    var r := CleanFieldName(word, s);
    forall k | 0 <= k < |r|
      ensures !IsSpace(r[k]) && !IsColon(r[k])
    {
      assert Kept(word, r[k]);
    }
  }

  // ---------------------------------------------------------------------------
  // The pattern [-*]\s*([^\n:：]+?)\s*[:：] as a left-to-right scanner
  // ---------------------------------------------------------------------------

  predicate IsBullet(c: char)
  {
    c == '-' || c == '*'
  }

  /** The characters the group `[^\n:：]` refuses. */
  predicate IsStop(c: char)
  {
    c == '\n' || IsColon(c)
  }

  /** The end of the run of whitespace starting at `i` (what a greedy `\s*` consumes). */
  function SkipSpaces(t: string, i: nat): (j: nat)
    requires i <= |t|
    ensures i <= j <= |t|
    ensures forall k :: i <= k < j ==> IsSpace(t[k])
    ensures j < |t| ==> !IsSpace(t[j])
    decreases |t| - i
  {
    if i < |t| && IsSpace(t[i]) then SkipSpaces(t, i + 1) else i
  }

  /** The first position at or after `i` holding a newline or a colon, or `|t|`. */
  function NextStop(t: string, i: nat): (j: nat)
    requires i <= |t|
    ensures i <= j <= |t|
    ensures forall k :: i <= k < j ==> !IsStop(t[k])
    ensures j < |t| ==> IsStop(t[j])
    decreases |t| - i
  {
    if i < |t| && !IsStop(t[i]) then NextStop(t, i + 1) else i
  }

  /** The last position in `[lo, hi)` holding whitespace other than a newline. */
  function LastInlineSpace(t: string, lo: nat, hi: nat): (r: Option<nat>)
    requires lo <= hi <= |t|
    ensures r.Some? ==> lo <= r.value < hi && IsSpace(t[r.value]) && t[r.value] != '\n'
    ensures r.Some? ==> forall k :: r.value < k < hi ==> !IsSpace(t[k]) || t[k] == '\n'
    ensures r.None? ==> forall k :: lo <= k < hi ==> !IsSpace(t[k]) || t[k] == '\n'
    decreases hi - lo
  {
    if hi == lo then None
    else if IsSpace(t[hi - 1]) && t[hi - 1] != '\n' then Some(hi - 1)
    else LastInlineSpace(t, lo, hi - 1)
  }

  /** What the group `([^\n:：]+?)` can capture: a non-empty run free of newlines and colons. */
  predicate IsLabel(g: string)
  {
    |g| >= 1 && forall k :: 0 <= k < |g| ==> !IsStop(g[k])
  }

  /**
   * A successful match: where the captured group starts, the group, and the
   * position just after the colon, where scanning resumes.
   */
  datatype Match = Match(start: nat, group: string, next: nat)

  /**
   * The attempt of the pattern at the bullet `t[p]`, with the backtracking of
   * Python's engine worked out:
   *  - the leading `\s*` first takes all whitespace, up to `q`;
   *  - if `t[q]` can start the group, the lazy group ends at the first point
   *    from which `\s*` reaches a colon. That point exists only if the first
   *    newline or colon `f` after `q` is a colon, or is a newline followed by
   *    whitespace and then a colon. The group is then `t[q..f]` without its
   *    trailing whitespace;
   *  - if `t[q]` is a colon, `\s*` gives back whitespace. The group is then the
   *    last non-newline whitespace character before `q`, and the attempt fails
   *    if there is none;
   *  - the match ends just after the colon.
   */
  function MatchAt(t: string, p: nat): (m: Option<Match>)
    requires p < |t| && IsBullet(t[p])
    ensures m.Some? ==> p < m.value.next <= |t| && IsColon(t[m.value.next - 1])
    ensures m.Some? ==> IsLabel(m.value.group)
  {
    var q := SkipSpaces(t, p + 1);
    if q == |t| then None
    else if IsColon(t[q]) then
      match LastInlineSpace(t, p + 1, q)
      case None => None
      case Some(s) => Some(Match(s, [t[s]], q + 1))
    else
      var f := NextStop(t, q);
      var c := SkipSpaces(t, f);
      if c < |t| && IsColon(t[c]) then
        var group := TrimEnd(t[q..f]);
        TrimEndIsPrefix(t[q..f]);
        assert t[q..f][0] == t[q];
        Some(Match(q, group, c + 1))
      else None
  }

  /** `re.findall(pattern, t[p..])`: the captured groups, left to right, without overlap. */
  function FindAll(t: string, p: nat): (groups: seq<string>)
    requires p <= |t|
    ensures forall i :: 0 <= i < |groups| ==> IsLabel(groups[i])
    decreases |t| - p
  {
    if p == |t| then []
    else if !IsBullet(t[p]) then FindAll(t, p + 1)
    else match MatchAt(t, p)
      case None => FindAll(t, p + 1)
      case Some(m) => [m.group] + FindAll(t, m.next)
  }

  // ---------------------------------------------------------------------------
  // What the scanner finds, stated against the pattern itself
  // ---------------------------------------------------------------------------

  /**
   * The pattern matches at the bullet `t[p]` with the group `t[a..b]` and the
   * colon at `t[e - 1]`: whitespace between bullet and group, a group free of
   * newlines and colons, whitespace between group and colon.
   */
  ghost predicate PatternAt(t: string, p: nat, a: nat, b: nat, e: nat)
  {
    && p < a < b < e <= |t|
    && IsBullet(t[p])
    && (forall k :: p < k < a ==> IsSpace(t[k]))
    && (forall k :: a <= k < b ==> !IsStop(t[k]))
    && (forall k :: b <= k < e - 1 ==> IsSpace(t[k]))
    && IsColon(t[e - 1])
  }

  /** A greedy `\s*` from `b` stops at the first colon reached through whitespace only. */
  lemma ColonAfterSpaces(t: string, b: nat, e: nat)
    requires b < e <= |t|
    requires forall k :: b <= k < e - 1 ==> IsSpace(t[k])
    requires IsColon(t[e - 1])
    ensures SkipSpaces(t, b) == e - 1
  {
    var j := SkipSpaces(t, b);
    assert !IsSpace(t[e - 1]);
  }

  /** The group starts within the whitespace that follows the bullet, or just after it. */
  lemma PatternStartBound(t: string, p: nat, a: nat, b: nat, e: nat)
    requires PatternAt(t, p, a, b, e)
    ensures SkipSpaces(t, p + 1) < |t| && a <= SkipSpaces(t, p + 1)
  {
    var q := SkipSpaces(t, p + 1);
    assert !IsSpace(t[e - 1]);
  }

  /** A colon right after the whitespace: the group can only be a single inline space before it. */
  lemma ColonFirstBound(t: string, p: nat, a: nat, b: nat, e: nat)
    requires PatternAt(t, p, a, b, e)
    requires SkipSpaces(t, p + 1) < |t| && IsColon(t[SkipSpaces(t, p + 1)])
    ensures LastInlineSpace(t, p + 1, SkipSpaces(t, p + 1)).Some?
    ensures a <= LastInlineSpace(t, p + 1, SkipSpaces(t, p + 1)).value
  {
    var q := SkipSpaces(t, p + 1);
    PatternStartBound(t, p, a, b, e);
    assert !IsStop(t[a]);
    assert a < q && IsSpace(t[a]) && t[a] != '\n';
  }

  /**
   * A label right after the whitespace: every match ends at the colon the
   * scanner finds, and no group ends before the trimmed run of label text.
   */
  lemma LabelFirstBound(t: string, p: nat, a: nat, b: nat, e: nat)
    requires PatternAt(t, p, a, b, e)
    requires SkipSpaces(t, p + 1) < |t| && !IsColon(t[SkipSpaces(t, p + 1)])
    ensures var q := SkipSpaces(t, p + 1);
            var f := NextStop(t, q);
            && SkipSpaces(t, f) == e - 1
            && q + |TrimEnd(t[q..f])| <= b
  {
    var q := SkipSpaces(t, p + 1);
    var f := NextStop(t, q);
    PatternStartBound(t, p, a, b, e);
    assert !IsStop(t[q]);
    assert b <= f;
    assert IsStop(t[e - 1]) && !IsSpace(t[e - 1]);
    assert f <= e - 1;
    ColonAfterSpaces(t, f, e);
    var g := TrimEnd(t[q..f]);
    TrimEndIsPrefix(t[q..f]);
    assert t[q..f][0] == t[q];
    assert g[|g| - 1] == t[q + |g| - 1];
  }

  /**
   * `MatchAt` finds a match of the pattern at `p`, and the one Python's engine
   * reports: the greedy leading `\s*` makes the group start as late as any
   * match allows, the lazy group then makes it as short as possible, and the
   * colon is then the only one reachable.
   */
  lemma MatchAtSound(t: string, p: nat)
    requires p < |t| && IsBullet(t[p]) && MatchAt(t, p).Some?
    ensures ReportedMatch(t, p, MatchAt(t, p).value)
  {
    if IsColon(t[SkipSpaces(t, p + 1)]) {
      ColonMatchSound(t, p);
    } else {
      LabelMatchSound(t, p);
    }
  }

  /**
   * `m` is the match Python reports at `p`: a match of the pattern whose group
   * starts as late as possible, is then as short as possible, and whose colon
   * is the one reachable from there.
   */
  ghost predicate ReportedMatch(t: string, p: nat, m: Match)
  {
    && PatternAt(t, p, m.start, m.start + |m.group|, m.next)
    && t[m.start..m.start + |m.group|] == m.group
    && (forall a: nat, b: nat, e: nat :: PatternAt(t, p, a, b, e) ==> a <= m.start)
    && (forall b: nat, e: nat :: PatternAt(t, p, m.start, b, e) ==>
          m.start + |m.group| <= b && (b == m.start + |m.group| ==> e == m.next))
  }

  /** The colon case of `MatchAt`: the group is the last inline space before the colon. */
  lemma ColonMatchSound(t: string, p: nat)
    requires p < |t| && IsBullet(t[p]) && MatchAt(t, p).Some?
    requires IsColon(t[SkipSpaces(t, p + 1)])
    ensures ReportedMatch(t, p, MatchAt(t, p).value)
  {
    var q := SkipSpaces(t, p + 1);
    var s := LastInlineSpace(t, p + 1, q).value;
    assert MatchAt(t, p).value == Match(s, [t[s]], q + 1);
    ColonReported(t, p, q, s);
  }

  lemma ColonReported(t: string, p: nat, q: nat, s: nat)
    requires p < |t| && IsBullet(t[p])
    requires q == SkipSpaces(t, p + 1) && q < |t| && IsColon(t[q])
    requires LastInlineSpace(t, p + 1, q) == Some(s)
    ensures ReportedMatch(t, p, Match(s, [t[s]], q + 1))
  {
    ColonWitness(t, p, q, s);
    forall a: nat, b: nat, e: nat | PatternAt(t, p, a, b, e)
      ensures a <= s && (a == s && b == s + 1 ==> e == q + 1)
    {
      ColonBounds(t, p, q, s, a, b, e);
    }
  }

  /** In the colon case, what `MatchAt` reports is a match of the pattern. */
  lemma ColonWitness(t: string, p: nat, q: nat, s: nat)
    requires p < |t| && IsBullet(t[p])
    requires q == SkipSpaces(t, p + 1) && q < |t| && IsColon(t[q])
    requires LastInlineSpace(t, p + 1, q) == Some(s)
    ensures PatternAt(t, p, s, s + 1, q + 1)
  {
  }

  /** In the colon case, no match starts after the inline space, and from it only one colon is reached. */
  lemma ColonBounds(t: string, p: nat, q: nat, s: nat, a: nat, b: nat, e: nat)
    requires PatternAt(t, p, a, b, e)
    requires q == SkipSpaces(t, p + 1) && q < |t| && IsColon(t[q])
    requires LastInlineSpace(t, p + 1, q) == Some(s)
    ensures a <= s && (a == s && b == s + 1 ==> e == q + 1)
  {
    ColonFirstBound(t, p, a, b, e);
    if b == s + 1 {
      ColonAfterSpaces(t, s + 1, q + 1);
      ColonAfterSpaces(t, s + 1, e);
    }
  }

  /** The label case of `MatchAt`: the group is the label text up to the stop, right-trimmed. */
  lemma LabelMatchSound(t: string, p: nat)
    requires p < |t| && IsBullet(t[p]) && MatchAt(t, p).Some?
    requires !IsColon(t[SkipSpaces(t, p + 1)])
    ensures ReportedMatch(t, p, MatchAt(t, p).value)
  {
    var q := SkipSpaces(t, p + 1);
    var f := NextStop(t, q);
    var c := SkipSpaces(t, f);
    var g := TrimEnd(t[q..f]);
    assert MatchAt(t, p).value == Match(q, g, c + 1);
    LabelReported(t, p, q, f, c, g);
  }

  lemma LabelReported(t: string, p: nat, q: nat, f: nat, c: nat, g: string)
    requires p < |t| && IsBullet(t[p])
    requires q == SkipSpaces(t, p + 1) && q < |t| && !IsColon(t[q])
    requires f == NextStop(t, q) && c == SkipSpaces(t, f) && c < |t| && IsColon(t[c])
    requires g == TrimEnd(t[q..f])
    ensures ReportedMatch(t, p, Match(q, g, c + 1))
  {
    LabelWitness(t, p, q, f, c, g);
    forall a: nat, b: nat, e: nat | PatternAt(t, p, a, b, e)
      ensures a <= q && q + |g| <= b && e == c + 1
    {
      PatternStartBound(t, p, a, b, e);
      LabelFirstBound(t, p, a, b, e);
    }
  }

  /** In the label case, what `MatchAt` reports is a match of the pattern. */
  lemma LabelWitness(t: string, p: nat, q: nat, f: nat, c: nat, g: string)
    requires p < |t| && IsBullet(t[p])
    requires q == SkipSpaces(t, p + 1) && q < |t| && !IsColon(t[q])
    requires f == NextStop(t, q) && c == SkipSpaces(t, f) && c < |t| && IsColon(t[c])
    requires g == TrimEnd(t[q..f])
    ensures q + |g| <= f && PatternAt(t, p, q, q + |g|, c + 1) && t[q..q + |g|] == g
  {
    TrimEndIsPrefix(t[q..f]);
    assert t[q..f][0] == t[q];
    forall k | q + |g| <= k < c
      ensures IsSpace(t[k])
    {
      if k < f {
        assert t[q..f][k - q] == t[k];
      }
    }
  }

  /** When `MatchAt` gives up, the pattern matches at `p` in no way at all. */
  lemma MatchAtComplete(t: string, p: nat)
    requires p < |t| && IsBullet(t[p]) && MatchAt(t, p).None?
    ensures forall a: nat, b: nat, e: nat :: !PatternAt(t, p, a, b, e)
  {
    forall a: nat, b: nat, e: nat | PatternAt(t, p, a, b, e)
      ensures false
    {
      PatternStartBound(t, p, a, b, e);
      var q := SkipSpaces(t, p + 1);
      if IsColon(t[q]) {
        ColonFirstBound(t, p, a, b, e);
      } else {
        LabelFirstBound(t, p, a, b, e);
      }
    }
  }

  /** The pattern matches at some position from `lo` on, before `hi`. */
  ghost predicate MatchesBetween(t: string, lo: nat, hi: nat)
  {
    exists r: nat, a: nat, b: nat, e: nat :: lo <= r < hi && PatternAt(t, r, a, b, e)
  }

  /** The pattern matches at `p` exactly when `MatchAt` succeeds there. */
  lemma MatchAtExact(t: string, p: nat)
    requires p < |t|
    ensures MatchesBetween(t, p, p + 1) <==> IsBullet(t[p]) && MatchAt(t, p).Some?
  {
    if IsBullet(t[p]) && MatchAt(t, p).Some? {
      var m := MatchAt(t, p).value;
      MatchAtSound(t, p);
      assert PatternAt(t, p, m.start, m.start + |m.group|, m.next);
    } else if IsBullet(t[p]) {
      MatchAtComplete(t, p);
    }
  }

  /** `FindAll` finds nothing exactly when the pattern matches nowhere from `p` on. */
  lemma {:induction false} FindAllEmpty(t: string, p: nat)
    requires p <= |t|
    ensures FindAll(t, p) == [] <==> !MatchesBetween(t, p, |t|)
    decreases |t| - p
  {
    if p < |t| {
      FindAllEmpty(t, p + 1);
      MatchAtExact(t, p);
      MatchesBetweenSplit(t, p, p + 1, |t|);
    }
  }

  /** A match between `lo` and `hi` lies on one side of any point between them. */
  lemma MatchesBetweenSplit(t: string, lo: nat, mid: nat, hi: nat)
    requires lo <= mid <= hi
    ensures MatchesBetween(t, lo, hi) <==> MatchesBetween(t, lo, mid) || MatchesBetween(t, mid, hi)
  {
    if MatchesBetween(t, lo, hi) {
      var r: nat, a: nat, b: nat, e: nat :| lo <= r < hi && PatternAt(t, r, a, b, e);
      if r < mid {
        assert MatchesBetween(t, lo, mid);
      } else {
        assert MatchesBetween(t, mid, hi);
      }
    }
  }

  /**
   * When `FindAll` finds something, its first group is the one reported at the
   * leftmost position where the pattern matches, and the search resumes after
   * that match.
   */
  lemma {:induction false} FindAllLeftmost(t: string, p: nat)
    requires p <= |t| && FindAll(t, p) != []
    ensures exists r: nat :: p <= r < |t| && IsBullet(t[r]) && MatchAt(t, r).Some?
              && !MatchesBetween(t, p, r)
              && FindAll(t, p) == [MatchAt(t, r).value.group] + FindAll(t, MatchAt(t, r).value.next)
    decreases |t| - p
  {
    MatchAtExact(t, p);
    if IsBullet(t[p]) && MatchAt(t, p).Some? {
      assert !MatchesBetween(t, p, p);
    } else {
      FindAllLeftmost(t, p + 1);
      MatchesBetweenSplit(t, p, p + 1, |t|);
      var r: nat :| p + 1 <= r < |t| && IsBullet(t[r]) && MatchAt(t, r).Some?
                 && !MatchesBetween(t, p + 1, r)
                 && FindAll(t, p + 1) == [MatchAt(t, r).value.group] + FindAll(t, MatchAt(t, r).value.next);
    }
  }

  // ---------------------------------------------------------------------------
  // Keeping each non-empty cleaned label once, in first-seen order
  // ---------------------------------------------------------------------------

  ghost predicate NoDuplicates<T>(xs: seq<T>)
  {
    forall i, j :: 0 <= i < j < |xs| ==> xs[i] != xs[j]
  }

  /** The position of the first occurrence of `x` in `xs`. */
  function FirstIndex<T(==)>(xs: seq<T>, x: T): (i: nat)
    requires x in xs
    ensures i < |xs| && xs[i] == x && x !in xs[..i]
  {
    if xs[0] == x then 0
    else
      var i := 1 + FirstIndex(xs[1..], x);
      assert xs[..i] == [xs[0]] + xs[1..][..i - 1];
      i
  }

  /** Any position of `x` not preceded by another `x` is its first index. */
  lemma FirstIndexUnique<T>(xs: seq<T>, x: T, i: nat)
    requires i < |xs| && xs[i] == x && x !in xs[..i]
    ensures FirstIndex(xs, x) == i
  {
    var j := FirstIndex(xs, x);
  }

  /** The first index of `x` in a prefix holding `x` is its first index in the whole list. */
  lemma FirstIndexPrefix<T>(xs: seq<T>, m: nat, x: T)
    requires m <= |xs| && x in xs[..m]
    ensures x in xs && FirstIndex(xs, x) == FirstIndex(xs[..m], x)
  {
    var i := FirstIndex(xs[..m], x);
    assert xs[..m][..i] == xs[..i];
    FirstIndexUnique(xs, x, i);
  }

  /** The list that the loop at mac_ai_cleaner.py:245-248 builds from the cleaned labels. */
  function Distinct(names: seq<string>): (r: seq<string>)
    ensures NoDuplicates(r)
    ensures forall x :: x in r <==> x in names && x != ""
    decreases |names|
  {
    if names == [] then []
    else
      var init := Distinct(names[..|names| - 1]);
      var x := names[|names| - 1];
      assert names == names[..|names| - 1] + [x];
      if x != "" && x !in init then init + [x] else init
  }

  /** One more name: `Distinct` extends its list exactly when the name is new and not empty. */
  lemma DistinctSnoc(names: seq<string>, x: string)
    ensures Distinct(names + [x]) ==
            if x != "" && x !in Distinct(names) then Distinct(names) + [x] else Distinct(names)
  {
    assert (names + [x])[..|names|] == names;
  }

  /** The names are kept in the order of their first occurrence. */
  lemma {:induction false} DistinctFirstSeenOrder(names: seq<string>)
    ensures forall i, j :: 0 <= i < j < |Distinct(names)| ==>
              FirstIndex(names, Distinct(names)[i]) < FirstIndex(names, Distinct(names)[j])
    decreases |names|
  {
    if names != [] {
      var n := |names|;
      var pre := names[..n - 1];
      var x := names[n - 1];
      var init := Distinct(pre);
      var r := Distinct(names);
      DistinctFirstSeenOrder(pre);
      PrefixFirstIndices(names, init);
      if x != "" && x !in init {
        FirstIndexUnique(names, x, n - 1);
        forall i, j | 0 <= i < j < |r|
          ensures FirstIndex(names, r[i]) < FirstIndex(names, r[j])
        {
          assert r[i] == init[i];
          if j < |init| {
            assert r[j] == init[j];
          }
        }
      }
    }
  }

  /** Names seen before the last position keep their first index when the last name is added. */
  lemma PrefixFirstIndices(names: seq<string>, init: seq<string>)
    requires names != []
    requires init == Distinct(names[..|names| - 1])
    ensures forall y :: y in init ==>
              y in names && FirstIndex(names, y) == FirstIndex(names[..|names| - 1], y) < |names| - 1
  {
    forall y | y in init
      ensures y in names && FirstIndex(names, y) == FirstIndex(names[..|names| - 1], y) < |names| - 1
    {
      FirstIndexPrefix(names, |names| - 1, y);
    }
  }

  /** The cleaned form of every captured label, in order. */
  function CleanAll(word: WordClass, labels: seq<string>): seq<string>
  {
    seq(|labels|, k requires 0 <= k < |labels| => CleanFieldName(word, labels[k]))
  }

  lemma CleanAllSnoc(word: WordClass, labels: seq<string>, i: nat)
    requires i < |labels|
    ensures CleanAll(word, labels[..i + 1]) == CleanAll(word, labels[..i]) + [CleanFieldName(word, labels[i])]
  {
  }

  /** The schema `extract_dynamic_fields` returns for a template. */
  function SchemaOf(word: WordClass, template: string): seq<string>
  {
    Distinct(CleanAll(word, FindAll(template, 0)))
  }

  /** One turn of the schema loop: the `i`-th label is added when new and non-empty. */
  lemma SchemaStep(word: WordClass, matches: seq<string>, i: nat, fields: seq<string>)
    requires i < |matches| && fields == Distinct(CleanAll(word, matches[..i]))
    ensures var cleaned := CleanFieldName(word, matches[i]);
            Distinct(CleanAll(word, matches[..i + 1]))
            == if cleaned != "" && cleaned !in fields then fields + [cleaned] else fields
  {
    CleanAllSnoc(word, matches, i);
    DistinctSnoc(CleanAll(word, matches[..i]), CleanFieldName(word, matches[i]));
  }

  /** `extract_dynamic_fields` (mac_ai_cleaner.py:239-250). */
  method ExtractDynamicFields(word: WordClass, prompt: string) returns (fields: seq<string>)
    ensures fields == SchemaOf(word, prompt)
    ensures NoDuplicates(fields) && "" !in fields
    ensures forall x :: x in fields <==> x != "" && x in CleanAll(word, FindAll(prompt, 0))
  {
    var matches := FindAll(prompt, 0);
    fields := [];
    var i := 0;
    assert CleanAll(word, matches[..0]) == [];
    while i < |matches|
      invariant 0 <= i <= |matches|
      invariant fields == Distinct(CleanAll(word, matches[..i]))
    {
      var cleaned := CleanFieldName(word, matches[i]);
      SchemaStep(word, matches, i, fields);
      if cleaned != "" && cleaned !in fields {
        fields := fields + [cleaned];
      }
      i := i + 1;
    }
    assert matches[..i] == matches;
  }

  /**
   * Every schema field is its own cleaned form; with a sane `\w` it holds no
   * whitespace and no colon.
   */
  lemma SchemaFieldsAreClean(word: WordClass, template: string)
    ensures forall f :: f in SchemaOf(word, template) ==> f != "" && CleanFieldName(word, f) == f
    ensures SaneWordClass(word) ==>
              forall f, k :: f in SchemaOf(word, template) && 0 <= k < |f| ==> !IsSpace(f[k]) && !IsColon(f[k])
  {
    var labels := FindAll(template, 0);
    var names := CleanAll(word, labels);
    forall f | f in SchemaOf(word, template)
      ensures f != "" && CleanFieldName(word, f) == f
      ensures SaneWordClass(word) ==> forall k :: 0 <= k < |f| ==> !IsSpace(f[k]) && !IsColon(f[k])
    {
      var i :| 0 <= i < |names| && names[i] == f;
      CleanFieldNameIdempotent(word, labels[i]);
      if SaneWordClass(word) {
        CleanFieldNameHasNoSeparators(word, labels[i]);
      }
    }
  }

  /** The schema lists each name in the order in which its first label occurs in the template. */
  lemma SchemaFirstSeenOrder(word: WordClass, template: string)
    ensures var names := CleanAll(word, FindAll(template, 0));
            var fields := SchemaOf(word, template);
            forall i, j :: 0 <= i < j < |fields| ==> FirstIndex(names, fields[i]) < FirstIndex(names, fields[j])
  {
    DistinctFirstSeenOrder(CleanAll(word, FindAll(template, 0)));
  }
}
