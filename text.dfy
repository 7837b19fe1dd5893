/** The string operations the capture server relies on, with JavaScript's
    meaning: `String.prototype.includes`, `toLowerCase` and `slice(0, n)`. */
module Text {

  /** `p` is a prefix of `s`. */
  predicate StartsWith(s: string, p: string) {
    |p| <= |s| && s[..|p|] == p
  }

  /** `s.includes(t)`: scan `s` from the left for an occurrence of `t`. */
  predicate Contains(s: string, t: string)
    decreases |s|
  {
    StartsWith(s, t) || (|s| > 0 && Contains(s[1..], t))
  }

  /** `t` occurs in `s` starting at index `i`. */
  predicate OccursAt(s: string, t: string, i: int) {
    0 <= i && i + |t| <= |s| && s[i..i + |t|] == t
  }

  /** An occurrence of `t` at any index makes the scan succeed. */
  lemma {:induction false} ContainsFromOccurrence(s: string, t: string, i: int)
    requires OccursAt(s, t, i)
    ensures Contains(s, t)
    decreases i
  {
    if i > 0 {
      assert s[1..][i - 1..i - 1 + |t|] == s[i..i + |t|];
      ContainsFromOccurrence(s[1..], t, i - 1);
    }
  }

  /** A successful scan has found an occurrence. */
  lemma {:induction false} OccurrenceFromContains(s: string, t: string) returns (i: int)
    requires Contains(s, t)
    ensures OccursAt(s, t, i)
    decreases |s|
  {
    if StartsWith(s, t) {
      i := 0;
    } else {
      var k := OccurrenceFromContains(s[1..], t);
      assert s[1..][k..k + |t|] == s[k + 1..k + 1 + |t|];
      i := k + 1;
    }
  }

  /** The scan finds `t` exactly when `t` occurs at some index of `s`. */
  lemma ContainsIffOccurs(s: string, t: string)
    ensures Contains(s, t) <==> exists i :: OccursAt(s, t, i)
  {
    if Contains(s, t) {
      var i := OccurrenceFromContains(s, t);
    }
    forall i | OccursAt(s, t, i) ensures Contains(s, t) {
      ContainsFromOccurrence(s, t, i);
    }
  }

  /** Containment is transitive: whatever contains `t` contains every
      substring of `t`. */
  lemma ContainsTransitive(s: string, t: string, u: string)
    requires Contains(s, t) && Contains(t, u)
    ensures Contains(s, u)
  {
    var i := OccurrenceFromContains(s, t);
    var j := OccurrenceFromContains(t, u);
    forall k | 0 <= k < |u| ensures s[i + j + k] == u[k] {
      assert u[k] == t[j + k] == s[i..i + |t|][j + k];
    }
    assert s[i + j..i + j + |u|] == u;
    ContainsFromOccurrence(s, u, i + j);
  }

  /** `toLowerCase` on one character, for the ASCII letters and the upper-case
      letters of Latin-1 (`À`..`Þ` except `×`), the ones Portuguese text uses. */
  function LowerChar(c: char): char {
    if 'A' <= c <= 'Z' || ('À' <= c <= 'Þ' && c != '×') then
      (c as int + 32) as char
    else
      c
  }

  /** `s.toLowerCase()`, character by character. */
  function Lower(s: string): string {
    seq(|s|, i requires 0 <= i < |s| => LowerChar(s[i]))
  }

  /** `s.slice(0, n)`: the first `n` characters, or all of `s` if shorter. */
  function Take(s: string, n: nat): string {
    if |s| <= n then s else s[..n]
  }

  /** Lower-casing keeps every occurrence: if `s` contains `t`, the lower-cased
      `s` contains the lower-cased `t`. */
  lemma LowerKeepsContains(s: string, t: string)
    requires Contains(s, t)
    ensures Contains(Lower(s), Lower(t))
  {
    var i := OccurrenceFromContains(s, t);
    assert Lower(s)[i..i + |t|] == Lower(t);
    ContainsFromOccurrence(Lower(s), Lower(t), i);
  }
}
