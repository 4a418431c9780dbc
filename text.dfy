/**
 * String helpers the application relies on through Python built-ins:
 * `str.strip()`, `str.join` and the ascending order of `ORDER BY name`.
 */
module Text {

  /** Python's `str.isspace` for one character. */
  predicate IsSpace(c: char) {
    var n := c as int;
    (0x09 <= n <= 0x0D) || (0x1C <= n <= 0x20) || n == 0x85 || n == 0xA0 || n == 0x1680 ||
    (0x2000 <= n <= 0x200A) || n == 0x2028 || n == 0x2029 || n == 0x202F || n == 0x205F || n == 0x3000
  }

  predicate AllSpace(s: string) {
    forall i :: 0 <= i < |s| ==> IsSpace(s[i])
  }

  /** Drops leading whitespace: what is dropped is whitespace and what stays is a suffix. */
  function TrimStart(s: string): (r: string)
    ensures |r| <= |s| && r == s[|s| - |r|..]
    ensures AllSpace(s[..|s| - |r|])
    ensures r == [] || !IsSpace(r[0])
  {
    if s != [] && IsSpace(s[0]) then TrimStart(s[1..]) else s
  }

  /** Drops trailing whitespace: what is dropped is whitespace and what stays is a prefix. */
  function TrimEnd(s: string): (r: string)
    ensures |r| <= |s| && r == s[..|r|]
    ensures AllSpace(s[|r|..])
    ensures r == [] || !IsSpace(r[|r| - 1])
  {
    if s != [] && IsSpace(s[|s| - 1]) then
      var r := TrimEnd(s[..|s| - 1]);
      DroppedTail(s, |r|);
      r
    else s
  }

  lemma DroppedTail(s: string, k: nat)
    requires s != [] && IsSpace(s[|s| - 1]) && k <= |s| - 1 && AllSpace(s[..|s| - 1][k..])
    ensures AllSpace(s[k..]) && s[..|s| - 1][..k] == s[..k]
  {
    forall i | 0 <= i < |s[k..]| ensures IsSpace(s[k..][i]) {
      if k + i < |s| - 1 {
        assert s[k..][i] == s[..|s| - 1][k..][i];
      }
    }
  }

  /** Python's `str.strip()` with no argument. */
  function Strip(s: string): (r: string)
  {
    TrimEnd(TrimStart(s))
  }

  /** Python's `sep.join(parts)`: every character comes from a part or from the separator. */
  function Join(sep: string, parts: seq<string>): (r: string)
    ensures |parts| == 1 ==> r == parts[0]
    ensures forall c :: c in r ==> c in sep || exists i :: 0 <= i < |parts| && c in parts[i]
  {
    if |parts| == 0 then ""
    else if |parts| == 1 then parts[0]
    else parts[0] + sep + Join(sep, parts[1..])
  }

  /** Ascending order of names, character by character (a proper prefix comes first). */
  predicate LexLess(a: string, b: string)
  {
    if a == [] then b != []
    else b != [] && (a[0] < b[0] || (a[0] == b[0] && LexLess(a[1..], b[1..])))
  }

  predicate StrictlyAscending(s: seq<string>)
  {
    forall i, j :: 0 <= i < j < |s| ==> LexLess(s[i], s[j])
  }

  /**
   * Inserts a name that is not there yet into an ascending list of names,
   * keeping it ascending and adding exactly that name.
   */
  function InsertAscending(x: string, s: seq<string>): (r: seq<string>)
    requires StrictlyAscending(s) && x !in s
    ensures StrictlyAscending(r)
    ensures |r| == |s| + 1 && forall y :: y in r <==> y == x || y in s
  {
    if s == [] then [x]
    else if LexLess(x, s[0]) then
      forall j | 0 < j < |s| ensures LexLess(x, s[j]) {
        LexLessTransitive(x, s[0], s[j]);
      }
      [x] + s
    else
      LexLessTotal(x, s[0]);
      var rest := InsertAscending(x, s[1..]);
      assert forall y :: y in rest ==> LexLess(s[0], y);
      [s[0]] + rest
  }

  // ---------------------------------------------------------------- lemmas

  /** Stripping keeps a contiguous run of the input and drops only whitespace around it. */
  lemma StripKeepsInfix(s: string)
    ensures var i, r := |s| - |TrimStart(s)|, Strip(s);
      0 <= i <= i + |r| <= |s| && r == s[i..i + |r|] && AllSpace(s[..i]) && AllSpace(s[i + |r|..])
  {
    var t := TrimStart(s);
    var r := TrimEnd(t);
    assert Strip(s) == r;
    StripInfix(s, t, r);
    StripTail(s, t, r);
  }

  lemma StripInfix(s: string, t: string, r: string)
    requires t == TrimStart(s) && r == TrimEnd(t)
    ensures r == s[|s| - |t|..|s| - |t| + |r|]
  {
    PrefixOfSuffix(s, t, r);
  }

  lemma StripTail(s: string, t: string, r: string)
    requires t == TrimStart(s) && r == TrimEnd(t)
    ensures AllSpace(s[|s| - |t| + |r|..])
  {
    PrefixOfSuffix(s, t, r);
    assert AllSpace(t[|r|..]);
  }

  /** A prefix r of a suffix t of s sits in s right where t starts. */
  lemma PrefixOfSuffix(s: string, t: string, r: string)
    requires |t| <= |s| && t == s[|s| - |t|..] && |r| <= |t| && r == t[..|r|]
    ensures r == s[|s| - |t|..|s| - |t| + |r|] && t[|r|..] == s[|s| - |t| + |r|..]
  {
  }


  /** The stripped name is empty exactly when the input is all whitespace. */
  lemma StripEmptyIff(s: string)
    ensures Strip(s) == [] <==> AllSpace(s)
  {
    var t := TrimStart(s);
    var r := TrimEnd(t);
    var i := |s| - |t|;
    StripKeepsInfix(s);
    if r == [] {
      assert s == s[..i] + s[i..];
      assert AllSpace(s[i..]);
    } else {
      assert s[i] == r[0];
    }
  }

  /** A stripped name begins and ends with a non-space, so stripping again changes nothing. */
  lemma StripIdempotent(s: string)
    ensures var r := Strip(s); (r == [] || (!IsSpace(r[0]) && !IsSpace(r[|r| - 1]))) && Strip(r) == r
  {
    var t := TrimStart(s);
    var r := TrimEnd(t);
    if r != [] {
      assert r[0] == t[0];
      assert TrimStart(r) == r;
      assert TrimEnd(r) == r;
    }
  }

  lemma {:induction false} LexLessIrreflexive(a: string)
    ensures !LexLess(a, a)
  {
    if a != [] {
      LexLessIrreflexive(a[1..]);
    }
  }

  lemma {:induction false} LexLessTransitive(a: string, b: string, c: string)
    requires LexLess(a, b) && LexLess(b, c)
    ensures LexLess(a, c)
  {
    if a != [] && a[0] == b[0] && b[0] == c[0] {
      LexLessTransitive(a[1..], b[1..], c[1..]);
    }
  }

  lemma {:induction false} LexLessTotal(a: string, b: string)
    ensures a == b || LexLess(a, b) || LexLess(b, a)
  {
    if a != [] && b != [] && a[0] == b[0] {
      LexLessTotal(a[1..], b[1..]);
      if a[1..] == b[1..] {
        assert a == [a[0]] + a[1..] && b == [b[0]] + b[1..];
      }
    }
  }

  lemma LexLessAsymmetric(a: string, b: string)
    requires LexLess(a, b)
    ensures !LexLess(b, a)
  {
    if LexLess(b, a) {
      LexLessTransitive(a, b, a);
      LexLessIrreflexive(a);
    }
  }

  /** Two ascending lists of the same names are the same list: `ORDER BY name` over unique names is determined. */
  lemma {:induction false} AscendingUnique(a: seq<string>, b: seq<string>)
    requires StrictlyAscending(a) && StrictlyAscending(b)
    requires forall x :: x in a <==> x in b
    ensures a == b
  {
    if a != [] {
      assert a[0] in b;
    }
    if b != [] {
      assert b[0] in a;
    }
    if a != [] && b != [] {
      if a[0] != b[0] {
        assert b[0] in a && a[0] in b;
        var i :| 0 <= i < |a| && a[i] == b[0];
        var j :| 0 <= j < |b| && b[j] == a[0];
        assert i > 0 && j > 0;
        LexLessAsymmetric(a[0], b[0]);
      }
      forall x ensures x in a[1..] <==> x in b[1..] {
        LexLessIrreflexive(x);
        if x in a[1..] {
          var i :| 1 <= i < |a| && a[i] == x;
          assert x in b;
          var j :| 0 <= j < |b| && b[j] == x;
          assert j != 0;
          assert x == b[1..][j - 1];
        }
        if x in b[1..] {
          var j :| 1 <= j < |b| && b[j] == x;
          assert x in a;
          var i :| 0 <= i < |a| && a[i] == x;
          assert i != 0;
          assert x == a[1..][i - 1];
        }
      }
      AscendingUnique(a[1..], b[1..]);
    }
  }
}
