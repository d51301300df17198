/**
 * The three JavaScript string operations the search step uses:
 * `String.prototype.trim`, `String.prototype.toLowerCase` and
 * `String.prototype.includes`.
 */
module Text {

  /**
   * The code points `trim` strips: ECMAScript's WhiteSpace (tab, vertical
   * tab, form feed, space, no-break space, zero-width no-break space and the
   * Unicode space separators) and LineTerminator (LF, CR, U+2028, U+2029).
   */
  predicate IsWhitespace(c: char) {
    || c == '\t' || c == '\n' || c == '\U{000B}' || c == '\U{000C}' || c == '\r'
    || c == ' ' || c == '\U{00A0}' || c == '\U{1680}'
    || ('\U{2000}' <= c <= '\U{200A}')
    || c == '\U{2028}' || c == '\U{2029}' || c == '\U{202F}' || c == '\U{205F}'
    || c == '\U{3000}' || c == '\U{FEFF}'
  }

  predicate AllWhitespace(s: string) {
    forall i :: 0 <= i < |s| ==> IsWhitespace(s[i])
  }

  /** The length of the run of whitespace that `s` starts with. */
  function LeadingWhitespace(s: string): (k: nat)
    ensures k <= |s|
    ensures AllWhitespace(s[..k])
    ensures k < |s| ==> !IsWhitespace(s[k])
  {
    if s != [] && IsWhitespace(s[0]) then
      var k := 1 + LeadingWhitespace(s[1..]);
      assert forall i :: 1 <= i < k ==> s[..k][i] == s[1..][..k - 1][i - 1];
      k
    else 0
  }

  /** The length of the run of whitespace that `s` ends with. */
  function TrailingWhitespace(s: string): (k: nat)
    ensures k <= |s|
    ensures AllWhitespace(s[|s| - k..])
    ensures k < |s| ==> !IsWhitespace(s[|s| - 1 - k])
  {
    if s != [] && IsWhitespace(s[|s| - 1]) then
      var init := s[..|s| - 1];
      var k := 1 + TrailingWhitespace(init);
      var tail, initTail := s[|s| - k..], init[|init| - (k - 1)..];
      assert AllWhitespace(tail) by {
        forall i | 0 <= i < |tail| ensures IsWhitespace(tail[i]) {
          if i < k - 1 { assert tail[i] == initTail[i]; }
        }
      }
      k
    else 0
  }

  /**
   * `String.prototype.trim`: `s` without the whitespace at either end. The
   * result is a slice of `s` between two all-whitespace runs, and is empty
   * exactly when `s` is all whitespace.
   */
  function Trim(s: string): (r: string)
    ensures AllWhitespace(s) <==> r == []
    ensures r != [] ==> !IsWhitespace(r[0]) && !IsWhitespace(r[|r| - 1])
    ensures exists a :: 0 <= a <= |s| - |r| && r == s[a..a + |r|]
                        && AllWhitespace(s[..a]) && AllWhitespace(s[a + |r|..])
  {
    var a := LeadingWhitespace(s);
    if a == |s| then
      assert s[..a] == s && s[a..] == [];
      []
    else
      var b := |s| - TrailingWhitespace(s);
      assert a < b by {
        assert !IsWhitespace(s[a]);
      }
      var r := s[a..b];
      assert !AllWhitespace(s) by { assert !IsWhitespace(s[a]); }
      assert r[0] == s[a] && r[|r| - 1] == s[b - 1];
      assert a + |r| == b && r == s[a..a + |r|];
      assert AllWhitespace(s[..a]) && AllWhitespace(s[b..]);
      r
  }

  /** Any run of whitespace followed by a non-whitespace character is the one `LeadingWhitespace` measures. */
  lemma {:induction false} LeadingWhitespaceUnique(s: string, k: nat)
    requires k <= |s| && AllWhitespace(s[..k])
    requires k < |s| ==> !IsWhitespace(s[k])
    ensures LeadingWhitespace(s) == k
  {
    if k > 0 {
      assert IsWhitespace(s[..k][0]);
      var t := s[1..];
      var u := t[..k - 1];
      assert AllWhitespace(u) by {
        forall i | 0 <= i < |u| ensures IsWhitespace(u[i]) {
          assert u[i] == s[..k][i + 1];
        }
      }
      assert k - 1 < |t| ==> t[k - 1] == s[k];
      LeadingWhitespaceUnique(t, k - 1);
    }
  }

  /** Any run of whitespace preceded by a non-whitespace character is the one `TrailingWhitespace` measures. */
  lemma TrailingWhitespaceUnique(s: string, k: nat)
    requires k <= |s| && AllWhitespace(s[|s| - k..])
    requires k < |s| ==> !IsWhitespace(s[|s| - 1 - k])
    ensures TrailingWhitespace(s) == k
  {
    var n := TrailingWhitespace(s);
  }

  /** Padding a trimmed string with whitespace on both sides and trimming again gives it back. */
  lemma TrimPadded(w1: string, t: string, w2: string)
    requires AllWhitespace(w1) && AllWhitespace(w2)
    requires t != [] ==> !IsWhitespace(t[0]) && !IsWhitespace(t[|t| - 1])
    ensures Trim(w1 + t + w2) == t
  {
    var s := w1 + t + w2;
    if t == [] {
      assert AllWhitespace(s) by {
        forall i | 0 <= i < |s| ensures IsWhitespace(s[i]) {
          if i < |w1| { assert s[i] == w1[i]; } else { assert s[i] == w2[i - |w1|]; }
        }
      }
    } else {
      assert s[..|w1|] == w1;
      assert s[|w1|] == t[0];
      LeadingWhitespaceUnique(s, |w1|);
      assert s[|s| - |w2|..] == w2;
      assert s[|s| - 1 - |w2|] == t[|t| - 1];
      TrailingWhitespaceUnique(s, |w2|);
      assert s[|w1|..|s| - |w2|] == t;
    }
  }

  /** Trimming is idempotent. */
  lemma TrimTwice(s: string)
    ensures Trim(Trim(s)) == Trim(s)
  {
    TrimPadded([], Trim(s), []);
    assert [] + Trim(s) + [] == Trim(s);
  }

  predicate IsUpper(c: char) {
    'A' <= c <= 'Z'
  }

  /** `toLowerCase` on one character, for the ASCII letters. */
  function LowerChar(c: char): (d: char)
    ensures !IsUpper(d)
    ensures IsUpper(c) ==> d as int == c as int + 32
    ensures !IsUpper(c) ==> d == c
  {
    if IsUpper(c) then (c as int + 32) as char else c
  }

  /** `String.prototype.toLowerCase`, restricted to the ASCII letters. */
  function Lower(s: string): (r: string)
    ensures |r| == |s|
  {
    seq(|s|, i requires 0 <= i < |s| => LowerChar(s[i]))
  }

  /** Lower-casing is idempotent. */
  lemma LowerTwice(s: string)
    ensures Lower(Lower(s)) == Lower(s)
  {
  }

  lemma LowerAppend(s: string, t: string)
    ensures Lower(s + t) == Lower(s) + Lower(t)
  {
  }

  lemma LowerKeepsWhitespace(w: string)
    requires AllWhitespace(w)
    ensures Lower(w) == w
  {
  }

  /** `Trim(s)` is the slice of `s` between its leading and its trailing whitespace runs. */
  lemma TrimBounds(s: string) returns (a: nat, b: nat)
    ensures a <= b <= |s| && Trim(s) == s[a..b]
    ensures AllWhitespace(s[..a]) && AllWhitespace(s[b..])
  {
    a := LeadingWhitespace(s);
    if a == |s| {
      b := a;
      assert s[b..] == [];
    } else {
      b := |s| - TrailingWhitespace(s);
      assert a < b by { assert !IsWhitespace(s[a]); }
    }
  }

  lemma SplitThree(s: string, a: nat, b: nat)
    requires a <= b <= |s|
    ensures s == s[..a] + s[a..b] + s[b..]
  {
    assert s[..b] == s[..a] + s[a..b];
    assert s == s[..b] + s[b..];
  }

  /** The whitespace runs `Trim` removes from either end of `s`. */
  lemma TrimSplit(s: string) returns (w1: string, w2: string)
    ensures AllWhitespace(w1) && AllWhitespace(w2)
    ensures s == w1 + Trim(s) + w2
  {
    var a, b := TrimBounds(s);
    SplitThree(s, a, b);
    w1, w2 := s[..a], s[b..];
  }

  /** Lower-casing leaves whitespace alone, so it commutes with trimming. */
  lemma LowerTrim(s: string)
    ensures Trim(Lower(s)) == Lower(Trim(s))
  {
    var w1, w2 := TrimSplit(s);
    LowerPadded(w1, Trim(s), w2);
  }

  lemma LowerPadded(w1: string, t: string, w2: string)
    requires AllWhitespace(w1) && AllWhitespace(w2)
    requires t != [] ==> !IsWhitespace(t[0]) && !IsWhitespace(t[|t| - 1])
    ensures Trim(Lower(w1 + t + w2)) == Lower(t)
  {
    LowerAppend(w1 + t, w2);
    LowerAppend(w1, t);
    LowerKeepsWhitespace(w1);
    LowerKeepsWhitespace(w2);
    var lt := Lower(t);
    if t != [] {
      assert lt[0] == LowerChar(t[0]) && lt[|t| - 1] == LowerChar(t[|t| - 1]);
    }
    TrimPadded(w1, lt, w2);
  }

  /** `q` occurs in `text` starting at position `i`. */
  predicate OccursAt(text: string, q: string, i: int) {
    0 <= i <= |text| - |q| && text[i..i + |q|] == q
  }

  lemma OccursAtShift(text: string, q: string, j: int)
    requires text != [] && 0 <= j
    ensures OccursAt(text[1..], q, j) <==> OccursAt(text, q, j + 1)
  {
    if 0 <= j <= |text| - 1 - |q| {
      assert text[1..][j..j + |q|] == text[j + 1..j + 1 + |q|];
    }
  }

  /**
   * `String.prototype.includes`: `q` occurs in `text` at some position. The
   * empty string occurs in every string.
   */
  function Includes(text: string, q: string): (b: bool)
    ensures b <==> exists i :: OccursAt(text, q, i)
    decreases |text|
  {
    if |q| > |text| then false
    else if text[..|q|] == q then
      assert OccursAt(text, q, 0);
      true
    else
      var rest := Includes(text[1..], q);
      assert !OccursAt(text, q, 0);
      assert text != [];
      assert forall j :: 0 <= j ==> (OccursAt(text[1..], q, j) <==> OccursAt(text, q, j + 1)) by {
        forall j | 0 <= j ensures OccursAt(text[1..], q, j) <==> OccursAt(text, q, j + 1) {
          OccursAtShift(text, q, j);
        }
      }
      assert (exists i :: OccursAt(text, q, i)) ==> exists j :: OccursAt(text[1..], q, j) by {
        if exists i :: OccursAt(text, q, i) {
          var i :| OccursAt(text, q, i);
          assert OccursAt(text[1..], q, i - 1);
        }
      }
      rest
  }

  /** `q` cannot occur in a string that lacks one of its characters. */
  lemma IncludesNeedsEveryChar(text: string, q: string, c: char)
    requires c in q && c !in text
    ensures !Includes(text, q)
  {
  }

  /** At a position wholly inside `x` or wholly inside `y`, `q` occurs in `x + y` iff it occurs there. */
  lemma OccursAtAppend(x: string, y: string, q: string, i: int)
    ensures 0 <= i && i + |q| <= |x| ==> (OccursAt(x + y, q, i) <==> OccursAt(x, q, i))
    ensures i >= |x| ==> (OccursAt(x + y, q, i) <==> OccursAt(y, q, i - |x|))
  {
    var s := x + y;
    if 0 <= i && i + |q| <= |x| {
      assert s[i..i + |q|] == x[i..i + |q|];
    }
    if |x| <= i <= |s| - |q| {
      assert s[i..i + |q|] == y[i - |x|..i - |x| + |q|];
    }
  }

  /**
   * A two-character `q` occurs in `x + y` only inside `x`, inside `y` or
   * across the seam.
   */
  lemma IncludesPairSplit(x: string, y: string, q: string)
    requires |q| == 2 && !Includes(x, q) && !Includes(y, q)
    requires x != [] && y != [] ==> x[|x| - 1] != q[0] || y[0] != q[1]
    ensures !Includes(x + y, q)
  {
    var s := x + y;
    forall i | 0 <= i <= |s| - 2 ensures !OccursAt(s, q, i) {
      OccursAtAppend(x, y, q, i);
      if i + 1 == |x| {
        assert s[i..i + 2][0] == x[|x| - 1] && s[i..i + 2][1] == y[0];
      }
    }
  }
}
