/**
 * The string operations the response parser leans on, restricted to ASCII:
 * `str.lower`, `str.strip`, `str.split('\n')`, `str.startswith`,
 * Python's substring test `p in s`, and `str.split(':', 1)[1]`.
 */
module Text {

  /** The characters `strip` removes in this model. */
  predicate IsSpace(c: char) {
    c == ' ' || c == '\t' || c == '\r' || c == '\n'
  }

  /** Nothing but whitespace. */
  predicate AllSpace(s: string) {
    forall i :: 0 <= i < |s| ==> IsSpace(s[i])
  }

  /** ASCII lower-casing of one character. */
  function LowerChar(c: char): char {
    if 'A' <= c <= 'Z' then (c as int + 32) as char else c
  }

  /**
   * `s.lower()`, ASCII only: every upper-case letter becomes its lower-case
   * partner, every other character stays, and no upper-case letter is left.
   */
  function Lower(s: string): (r: string)
    ensures |r| == |s|
    ensures forall i :: 0 <= i < |s| ==> r[i] == LowerChar(s[i])
    ensures forall i :: 0 <= i < |s| && !('A' <= s[i] <= 'Z') ==> r[i] == s[i]
    ensures forall i :: 0 <= i < |s| && 'A' <= s[i] <= 'Z' ==> r[i] as int == s[i] as int + 32
    ensures forall i :: 0 <= i < |r| ==> !('A' <= r[i] <= 'Z')
  {
    seq(|s|, i requires 0 <= i < |s| => LowerChar(s[i]))
  }

  /** Number of leading whitespace characters of `s`. */
  function Lead(s: string): (a: nat)
    ensures a <= |s|
    ensures AllSpace(s[..a])
    ensures a < |s| ==> !IsSpace(s[a])
  {
    if |s| > 0 && IsSpace(s[0]) then
      var a := Lead(s[1..]);
      assert s[..1 + a] == [s[0]] + s[1..][..a];
      1 + a
    else 0
  }

  /** Length of `s` once its trailing whitespace is dropped. */
  function Stop(s: string): (b: nat)
    ensures b <= |s|
    ensures AllSpace(s[b..])
    ensures 0 < b ==> !IsSpace(s[b - 1])
  {
    if |s| > 0 && IsSpace(s[|s| - 1]) then
      var b := Stop(s[..|s| - 1]);
      assert s[b..] == s[..|s| - 1][b..] + [s[|s| - 1]];
      b
    else |s|
  }

  /**
   * `s.strip()`: the slice of `s` that starts after its leading whitespace,
   * is followed by nothing but whitespace, and neither starts nor ends
   * with whitespace itself.
   */
  function Trim(s: string): (r: string)
    ensures Lead(s) + |r| <= |s| && r == s[Lead(s)..Lead(s) + |r|]
    ensures AllSpace(s[Lead(s) + |r|..])
    ensures |r| > 0 ==> !IsSpace(r[0]) && !IsSpace(r[|r| - 1])
  {
    if Lead(s) == |s| then []
    else
      assert !IsSpace(s[Lead(s)]);
      s[Lead(s)..Stop(s)]
  }

  /** Text with no whitespace at either end is its own trim. */
  lemma {:induction false} TrimUnpadded(s: string)
    requires |s| > 0 && !IsSpace(s[0]) && !IsSpace(s[|s| - 1])
    ensures Trim(s) == s
  {
    assert Lead(s) == 0;
    assert Stop(s) == |s|;
    assert s[0..|s|] == s;
  }

  /**
   * Trimming any extension of `a` keeps `a` at the front when `a` starts
   * and ends with non-whitespace.
   */
  lemma {:induction false} TrimKeepsPrefix(a: string, b: string)
    requires |a| > 0 && !IsSpace(a[0]) && !IsSpace(a[|a| - 1])
    ensures StartsWith(Trim(a + b), a)
  {
    var s := a + b;
    assert s[0] == a[0];
    assert Lead(s) == 0;
    var n := |a| - 1;
    assert s[n] == a[n];
    assert Stop(s) <= n ==> s[Stop(s)..][n - Stop(s)] == s[n];
    assert Trim(s) == s[..Stop(s)];
    assert s[..Stop(s)][..|a|] == a;
  }

  /** One space before already-trimmed text is trimmed away. */
  lemma {:induction false} TrimSpaceThen(v: string)
    requires Trim(v) == v
    ensures Trim([' '] + v) == v
  {
    var t := [' '] + v;
    assert t[1..] == v;
    if |v| == 0 {
      assert Lead(t) == 1;
    } else {
      assert Lead(v) == 0;
      assert Lead(t) == 1;
      assert t[|t| - 1] == v[|v| - 1];
      assert Stop(t) == |t|;
    }
  }

  /** `s.startswith(p)`. */
  predicate StartsWith(s: string, p: string) {
    |p| <= |s| && s[..|p|] == p
  }

  /**
   * `s.startswith(p)` holds exactly when `p` is no longer than `s` and the
   * two agree at every index of `p`; when it fails, they differ somewhere.
   */
  lemma {:induction false} StartsWithAgrees(s: string, p: string)
    ensures StartsWith(s, p) <==> |p| <= |s| && forall i :: 0 <= i < |p| ==> s[i] == p[i]
    ensures !StartsWith(s, p) ==> |p| > |s| || exists i :: 0 <= i < |p| && s[i] != p[i]
  {
    if |p| <= |s| && forall i :: 0 <= i < |p| ==> s[i] == p[i] {
      assert s[..|p|] == p;
    }
  }

  /** `s.startswith(p)` holds exactly when `s` is `p` followed by something. */
  lemma {:induction false} StartsWithIff(s: string, p: string)
    ensures StartsWith(s, p) <==> exists t :: s == p + t
  {
    if StartsWith(s, p) {
      assert s == p + s[|p|..];
    }
    if exists t :: s == p + t {
      var t :| s == p + t;
      assert s[..|p|] == p;
    }
  }

  /** `p` sits in `s` at index `i`. */
  predicate OccursAt(s: string, p: string, i: int) {
    0 <= i && i + |p| <= |s| && s[i..i + |p|] == p
  }

  /** Python's `p in s` on strings: substring containment. */
  predicate Contains(s: string, p: string) {
    StartsWith(s, p) || (|s| > 0 && Contains(s[1..], p))
  }

  /** Index of the first `:` of `s`. */
  function ColonIndex(s: string): (i: nat)
    requires ':' in s
    ensures i < |s| && s[i] == ':'
    ensures forall k :: 0 <= k < i ==> s[k] != ':'
  {
    if s[0] == ':' then 0 else 1 + ColonIndex(s[1..])
  }

  /** The first colon is the only colon with none before it. */
  lemma {:induction false} ColonIndexUnique(s: string, c: int)
    requires 0 <= c < |s| && s[c] == ':'
    requires forall k :: 0 <= k < c ==> s[k] != ':'
    ensures ':' in s
    ensures ColonIndex(s) == c
    decreases c
  {
    assert s[c] in s;
    if c > 0 {
      assert s[1..][c - 1] == s[c];
      ColonIndexUnique(s[1..], c - 1);
    }
  }

  /**
   * `s.split(':', 1)[1]`: what follows the first colon. Putting the colon
   * back after the part before it rebuilds `s`.
   */
  function AfterColon(s: string): (r: string)
    requires ':' in s
    ensures |r| < |s|
    ensures s == s[..|s| - |r| - 1] + [':'] + r
    ensures ':' !in s[..|s| - |r| - 1]
  {
    s[ColonIndex(s) + 1..]
  }

  /** `s.split('\n')`: always at least one piece, none holding a newline. */
  function SplitLines(s: string): (lines: seq<string>)
    ensures |lines| >= 1
    ensures forall i :: 0 <= i < |lines| ==> '\n' !in lines[i]
  {
    if |s| == 0 then [""]
    else
      var rest := SplitLines(s[1..]);
      if s[0] == '\n' then [""] + rest
      else [[s[0]] + rest[0]] + rest[1..]
  }

  /** `'\n'.join(lines)`. */
  function Join(lines: seq<string>): string
    requires |lines| >= 1
  {
    if |lines| == 1 then lines[0] else lines[0] + "\n" + Join(lines[1..])
  }

  /** A trimmed text starting with `p` has `p` right after its leading whitespace. */
  lemma {:induction false} TrimStartsWith(s: string, p: string)
    requires StartsWith(Trim(s), p)
    ensures Lead(s) + |p| <= |s|
    ensures forall k {:trigger p[k]} :: 0 <= k < |p| ==> s[Lead(s) + k] == p[k]
  {
    assert Lead(s) + |p| <= |s|;
    forall k | 0 <= k < |p|
      ensures s[Lead(s) + k] == p[k]
    {
      TrimStartsWithAt(s, p, k);
    }
  }

  lemma {:induction false} TrimStartsWithAt(s: string, p: string, k: int)
    requires StartsWith(Trim(s), p) && 0 <= k < |p|
    ensures s[Lead(s) + k] == p[k]
  {
    var t := Trim(s);
    assert t[k] == p[k];
    assert t[k] == s[Lead(s) + k];
  }

  // ---------------------------------------------------------------------
  // Substring containment

  /** The recursive test agrees with "occurs at some index". */
  lemma {:induction false} ContainsIff(s: string, p: string)
    ensures Contains(s, p) <==> exists i :: OccursAt(s, p, i)
    decreases |s|
  {
    if Contains(s, p) {
      if StartsWith(s, p) {
        assert OccursAt(s, p, 0);
      } else {
        ContainsIff(s[1..], p);
        var j :| OccursAt(s[1..], p, j);
        assert s[1..][j..j + |p|] == s[j + 1..j + 1 + |p|];
        assert OccursAt(s, p, j + 1);
      }
    }
    if exists i :: OccursAt(s, p, i) {
      var i :| OccursAt(s, p, i);
      if i > 0 {
        assert s[1..][i - 1..i - 1 + |p|] == s[i..i + |p|];
        assert OccursAt(s[1..], p, i - 1);
        ContainsIff(s[1..], p);
      } else {
        assert StartsWith(s, p);
      }
    }
  }

  lemma {:induction false} ContainsAt(s: string, p: string, i: int)
    requires OccursAt(s, p, i)
    ensures Contains(s, p)
  {
    ContainsIff(s, p);
  }

  /** A text that lacks some character of `p` does not contain `p`. */
  lemma {:induction false} MissingCharNotContained(s: string, p: string, c: char)
    requires c in p && c !in s
    ensures !Contains(s, p)
    decreases |s|
  {
    var j :| 0 <= j < |p| && p[j] == c;
    if |p| <= |s| {
      assert s[j] in s;
      assert s[..|p|][j] != p[j];
    }
    if |s| > 0 {
      assert forall x :: x in s[1..] ==> x in s;
      MissingCharNotContained(s[1..], p, c);
    }
  }

  /** A substring of a substring is a substring. */
  lemma {:induction false} ContainsTransitive(s: string, t: string, p: string)
    requires Contains(s, t) && Contains(t, p)
    ensures Contains(s, p)
  {
    ContainsIff(s, t);
    ContainsIff(t, p);
    var i :| OccursAt(s, t, i);
    var j :| OccursAt(t, p, j);
    assert t == s[i..i + |t|];
    assert s[i + j..i + j + |p|] == p by {
      forall k | 0 <= k < |p|
        ensures s[i + j + k] == p[k]
      {
        assert p[k] == t[j + k];
        assert t[j + k] == s[i + j + k];
      }
    }
    ContainsAt(s, p, i + j);
  }

  /** Lower-casing keeps containment. */
  lemma {:induction false} ContainsLower(s: string, p: string)
    requires Contains(s, p)
    ensures Contains(Lower(s), Lower(p))
  {
    ContainsIff(s, p);
    var i :| OccursAt(s, p, i);
    LowerSlice(s, i, i + |p|);
    ContainsAt(Lower(s), Lower(p), i);
  }

  /** Every piece of a join is a substring of it. */
  lemma {:induction false} ContainsJoined(lines: seq<string>, k: int)
    requires |lines| >= 1 && 0 <= k < |lines|
    ensures Contains(Join(lines), lines[k])
    decreases |lines|
  {
    if |lines| == 1 {
      ContainsAt(lines[0], lines[0], 0);
    } else {
      var rest := Join(lines[1..]);
      assert Join(lines) == lines[0] + "\n" + rest;
      if k == 0 {
        assert Join(lines)[0..|lines[0]|] == lines[0];
        ContainsAt(Join(lines), lines[0], 0);
      } else {
        ContainsJoined(lines[1..], k - 1);
        var off := |lines[0]| + 1;
        assert Join(lines)[off..off + |rest|] == rest;
        ContainsAt(Join(lines), rest, off);
        ContainsTransitive(Join(lines), rest, lines[k]);
      }
    }
  }

  /** Every line of `s.split('\n')` is a substring of `s`. */
  lemma {:induction false} LineOfText(s: string, k: int)
    requires 0 <= k < |SplitLines(s)|
    ensures Contains(s, SplitLines(s)[k])
  {
    JoinSplit(s);
    ContainsJoined(SplitLines(s), k);
  }

  /** The value after the first colon, trimmed, is a substring of the line. */
  lemma {:induction false} TrimmedValueOfLine(s: string)
    requires ':' in s
    ensures Contains(s, Trim(AfterColon(s)))
  {
    var a := AfterColon(s);
    var t := Trim(a);
    ContainsAt(a, t, Lead(a));
    ContainsAt(s, a, |s| - |a|);
    ContainsTransitive(s, a, t);
  }

  // ---------------------------------------------------------------------
  // Splitting and joining lines

  /** Splitting on newlines and joining with newlines gives the text back. */
  lemma {:induction false} JoinSplit(s: string)
    ensures Join(SplitLines(s)) == s
    decreases |s|
  {
    if |s| > 0 {
      var rest := SplitLines(s[1..]);
      JoinSplit(s[1..]);
      if s[0] == '\n' {
        assert SplitLines(s) == [""] + rest;
        assert ([""] + rest)[1..] == rest;
        assert s == "\n" + s[1..];
      } else {
        var lines := SplitLines(s);
        assert lines == [[s[0]] + rest[0]] + rest[1..];
        if |rest| == 1 {
          assert Join(rest) == rest[0];
        } else {
          assert lines[1..] == rest[1..];
          assert Join(rest) == rest[0] + "\n" + Join(rest[1..]);
        }
        assert s == [s[0]] + s[1..];
      }
    }
  }

  /** A newline-free prefix joins the first line. */
  lemma {:induction false} SplitPrefix(a: string, s: string)
    requires '\n' !in a
    ensures SplitLines(a + s) == [a + SplitLines(s)[0]] + SplitLines(s)[1..]
    decreases |a|
  {
    if |a| > 0 {
      SplitPrefix(a[1..], s);
      assert (a + s)[1..] == a[1..] + s;
      assert (a + s)[0] == a[0];
      assert [a[0]] + (a[1..] + SplitLines(s)[0]) == a + SplitLines(s)[0];
    } else {
      var lines := SplitLines(s);
      assert a + s == s;
      assert a + lines[0] == lines[0];
      assert lines == [lines[0]] + lines[1..];
    }
  }

  /** Joining newline-free lines and splitting again gives the lines back. */
  lemma {:induction false} SplitJoin(lines: seq<string>)
    requires |lines| >= 1
    requires forall i :: 0 <= i < |lines| ==> '\n' !in lines[i]
    ensures SplitLines(Join(lines)) == lines
    decreases |lines|
  {
    if |lines| == 1 {
      SplitPrefix(lines[0], "");
      assert lines[0] + "" == lines[0];
    } else {
      var rest := Join(lines[1..]);
      SplitJoin(lines[1..]);
      assert SplitLines("\n" + rest) == [""] + lines[1..] by {
        assert ("\n" + rest)[1..] == rest;
      }
      SplitPrefix(lines[0], "\n" + rest);
      assert lines[0] + ("\n" + rest) == Join(lines);
      assert lines[0] + "" == lines[0];
      assert ([""] + lines[1..])[1..] == lines[1..];
    }
  }

  // ---------------------------------------------------------------------
  // Lower-casing commutes with the other operations

  lemma {:induction false} LowerSlice(s: string, i: int, j: int)
    requires 0 <= i <= j <= |s|
    ensures Lower(s[i..j]) == Lower(s)[i..j]
  {
  }

  lemma {:induction false} LowerConcat(a: string, b: string)
    ensures Lower(a + b) == Lower(a) + Lower(b)
  {
  }

  lemma {:induction false} LowerIdempotent(s: string)
    ensures Lower(Lower(s)) == Lower(s)
  {
  }

  lemma {:induction false} LowerKeepsSpace(c: char)
    ensures IsSpace(LowerChar(c)) <==> IsSpace(c)
    ensures LowerChar(c) == ':' <==> c == ':'
    ensures LowerChar(c) == '\n' <==> c == '\n'
  {
  }

  lemma {:induction false} LeadLower(s: string)
    ensures Lead(Lower(s)) == Lead(s)
    decreases |s|
  {
    if |s| > 0 {
      LowerKeepsSpace(s[0]);
      assert Lower(s)[1..] == Lower(s[1..]);
      LeadLower(s[1..]);
    }
  }

  lemma {:induction false} StopLower(s: string)
    ensures Stop(Lower(s)) == Stop(s)
    decreases |s|
  {
    if |s| > 0 {
      LowerKeepsSpace(s[|s| - 1]);
      LowerSlice(s, 0, |s| - 1);
      assert s[0..|s| - 1] == s[..|s| - 1];
      assert Lower(s)[0..|s| - 1] == Lower(s)[..|s| - 1];
      StopLower(s[..|s| - 1]);
    }
  }

  lemma {:induction false} TrimLower(s: string)
    ensures Trim(Lower(s)) == Lower(Trim(s))
  {
    LeadLower(s);
    StopLower(s);
    if Lead(s) < |s| {
      LowerSlice(s, Lead(s), Stop(s));
    }
  }

  lemma {:induction false} ColonIndexLower(s: string)
    requires ':' in s
    ensures ':' in Lower(s)
    ensures ColonIndex(Lower(s)) == ColonIndex(s)
  {
    var i := ColonIndex(s);
    LowerKeepsSpace(s[i]);
    var j := ColonIndex(Lower(s));
    LowerKeepsSpace(s[j]);
  }

  lemma {:induction false} AfterColonLower(s: string)
    requires ':' in s
    ensures ':' in Lower(s)
    ensures AfterColon(Lower(s)) == Lower(AfterColon(s))
  {
    ColonIndexLower(s);
    var c := ColonIndex(s);
    var a, b := AfterColon(s), AfterColon(Lower(s));
    assert a == s[c + 1..] && b == Lower(s)[c + 1..];
    forall k | 0 <= k < |a|
      ensures b[k] == LowerChar(a[k])
    {
      assert b[k] == Lower(s)[c + 1 + k];
    }
  }

  /** Each string lower-cased. */
  function LowerAll(lines: seq<string>): (r: seq<string>)
    ensures |r| == |lines|
    ensures forall k :: 0 <= k < |lines| ==> r[k] == Lower(lines[k])
  {
    seq(|lines|, k requires 0 <= k < |lines| => Lower(lines[k]))
  }

  /** `SplitLines` unfolded once at the front of the text. */
  lemma {:induction false} SplitLinesCons(c: char, s: string)
    ensures c == '\n' ==> SplitLines([c] + s) == [""] + SplitLines(s)
    ensures c != '\n' ==>
      SplitLines([c] + s) == [[c] + SplitLines(s)[0]] + SplitLines(s)[1..]
  {
    assert ([c] + s)[1..] == s;
  }

  lemma {:induction false} LowerAllCons(x: string, lines: seq<string>)
    requires |lines| >= 1
    ensures LowerAll([x] + lines) == [Lower(x)] + LowerAll(lines)
    ensures LowerAll([x] + lines[1..]) == [Lower(x)] + LowerAll(lines)[1..]
  {
  }

  /** Lower-casing the text lower-cases each of its lines. */
  lemma {:induction false} SplitLinesLower(s: string)
    ensures SplitLines(Lower(s)) == LowerAll(SplitLines(s))
    decreases |s|
  {
    if |s| > 0 {
      var c, tail := s[0], s[1..];
      var rest := SplitLines(tail);
      SplitLinesLower(tail);
      LowerKeepsSpace(c);
      assert s == [c] + tail;
      LowerConcat([c], tail);
      assert Lower([c]) == [LowerChar(c)];
      SplitLinesCons(c, tail);
      SplitLinesCons(LowerChar(c), Lower(tail));
      if c == '\n' {
        LowerAllCons("", rest);
      } else {
        LowerConcat([c], rest[0]);
        LowerAllCons([c] + rest[0], rest);
      }
    }
  }
}
