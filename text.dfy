/**
 * Splitting and joining strings on a separator, as Python's `str.split(sep)`
 * and `sep.join(fields)` do.  The wire format separates fields with the
 * two-character separator CR LF; IP addresses are split on '.'.
 */
module Text {

  /** The field separator of every record and of the transport envelope. */
  const Crlf: string := "\r\n"

  /** `sep` starts at position `i` of `s`. */
  predicate OccursAt(s: string, sep: string, i: nat)
  {
    i + |sep| <= |s| && s[i..i + |sep|] == sep
  }

  /** `sep in s` in Python. */
  predicate Contains(s: string, sep: string)
  {
    exists i: nat | i <= |s| :: OccursAt(s, sep, i)
  }

  /** No proper non-empty suffix of `sep` is also a prefix of it, so two
      occurrences of `sep` can never overlap. */
  predicate BorderFree(sep: string)
  {
    forall k :: 0 < k < |sep| ==> sep[k..] != sep[..|sep| - k]
  }

  /** Python's `s.split(sep)`: cut at every occurrence, scanning left to right. */
  function Split(s: string, sep: string): (r: seq<string>)
    requires |sep| > 0
    ensures |r| >= 1
    ensures r[0] <= s
    decreases |s|
  {
    if |s| < |sep| then [s]
    else if s[..|sep|] == sep then [""] + Split(s[|sep|..], sep)
    else
      var rest := Split(s[1..], sep);
      [[s[0]] + rest[0]] + rest[1..]
  }

  /** Python's `sep.join(fields)`. */
  function Join(fields: seq<string>, sep: string): string
  {
    if |fields| == 0 then ""
    else if |fields| == 1 then fields[0]
    else fields[0] + sep + Join(fields[1..], sep)
  }

  /** Joining the pieces of a split gives back the original string. */
  lemma {:induction false} JoinSplit(s: string, sep: string)
    requires |sep| > 0
    ensures Join(Split(s, sep), sep) == s
    decreases |s|
  {
    if |s| < |sep| {
    } else if s[..|sep|] == sep {
      var tail := s[|sep|..];
      JoinSplit(tail, sep);
      JoinEmptyFirst(Split(tail, sep), sep);
      assert s == sep + tail;
    } else {
      JoinSplit(s[1..], sep);
      JoinExtendFirst([s[0]], Split(s[1..], sep), sep);
      assert s == [s[0]] + s[1..];
    }
  }

  lemma JoinEmptyFirst(fields: seq<string>, sep: string)
    requires |fields| >= 1
    ensures Join([""] + fields, sep) == sep + Join(fields, sep)
  {
    assert ([""] + fields)[1..] == fields;
  }

  lemma JoinExtendFirst(x: string, fields: seq<string>, sep: string)
    requires |fields| >= 1
    ensures Join([x + fields[0]] + fields[1..], sep) == x + Join(fields, sep)
  {
    var g := [x + fields[0]] + fields[1..];
    if |fields| > 1 {
      assert g[1..] == fields[1..];
    }
  }

  /** A string that contains the separator is cut into at least two pieces. */
  lemma SeparatorSplits(s: string, sep: string)
    requires |sep| > 0 && Contains(s, sep)
    ensures |Split(s, sep)| >= 2
  {
    var r := Split(s, sep);
    if |r| == 1 {
      JoinSplit(s, sep);
      SplitFieldsSepFree(s, sep);
    }
  }

  /** No piece produced by a split contains the separator. */
  lemma {:induction false} SplitFieldsSepFree(s: string, sep: string)
    requires |sep| > 0
    ensures forall f | f in Split(s, sep) :: !Contains(f, sep)
    decreases |s|
  {
    if |s| < |sep| {
      assert Split(s, sep) == [s];
    } else if s[..|sep|] == sep {
      SplitFieldsSepFree(s[|sep|..], sep);
      assert !Contains("", sep);
    } else {
      SplitFieldsSepFree(s[1..], sep);
      var rest := Split(s[1..], sep);
      var g := [s[0]] + rest[0];
      assert g <= s;
      assert !Contains(rest[0], sep) by { assert rest[0] in rest; }
      forall i: nat | i <= |g|
        ensures !OccursAt(g, sep, i)
      {
        if i + |sep| <= |g| {
          if i == 0 {
            assert g[..|sep|] == s[..|sep|];
          } else {
            assert rest[0][i - 1..i - 1 + |sep|] == g[i..i + |sep|];
            assert !OccursAt(rest[0], sep, i - 1);
          }
        }
      }
      assert !Contains(g, sep);
      forall f | f in Split(s, sep) ensures !Contains(f, sep) {
        if f != g {
          assert f in rest[1..];
        }
      }
    }
  }

  /** A string without the separator splits into itself alone. */
  lemma {:induction false} SplitSepFree(f: string, sep: string)
    requires |sep| > 0 && !Contains(f, sep)
    ensures Split(f, sep) == [f]
    decreases |f|
  {
    if |f| < |sep| {
    } else {
      assert !OccursAt(f, sep, 0);
      assert f[..|sep|] != sep;
      TailSepFree(f, sep);
      SplitSepFree(f[1..], sep);
      assert [f[0]] + f[1..] == f;
    }
  }

  /** Dropping the first character keeps a string separator-free. */
  lemma TailSepFree(f: string, sep: string)
    requires |f| > 0 && !Contains(f, sep)
    ensures !Contains(f[1..], sep)
  {
    forall i: nat | i <= |f[1..]|
      ensures !OccursAt(f[1..], sep, i)
    {
      if i + |sep| <= |f[1..]| {
        var j: nat := i + 1;
        assert j <= |f| && !OccursAt(f, sep, j);
        var a, b := f[1..][i..i + |sep|], f[j..j + |sep|];
        forall k | 0 <= k < |sep| ensures a[k] == b[k] { }
        assert a == b;
      }
    }
  }

  /** A separator-free field followed by the separator is cut off exactly. */
  lemma {:induction false} SplitAfterField(f: string, sep: string, rest: string)
    requires |sep| > 0 && BorderFree(sep) && !Contains(f, sep)
    ensures Split(f + sep + rest, sep) == [f] + Split(rest, sep)
    decreases |f|
  {
    var s := f + sep + rest;
    if |f| == 0 {
      assert s[..|sep|] == sep;
      assert s[|sep|..] == rest;
    } else {
      assert s[..|sep|] != sep by {
        if |sep| <= |f| {
          assert s[..|sep|] == f[0..|sep|];
          assert !OccursAt(f, sep, 0);
        } else {
          var k := |f|;
          assert s[..|sep|][k..] == sep[..|sep| - k];
          assert sep[k..] != sep[..|sep| - k];
        }
      }
      TailSepFree(f, sep);
      SplitAfterField(f[1..], sep, rest);
      assert s[1..] == f[1..] + sep + rest;
      assert [s[0]] + f[1..] == f;
    }
  }

  /** Splitting a join of separator-free fields gives back the fields. */
  lemma {:induction false} SplitJoin(fields: seq<string>, sep: string)
    requires |sep| > 0 && BorderFree(sep) && |fields| >= 1
    requires forall f | f in fields :: !Contains(f, sep)
    ensures Split(Join(fields, sep), sep) == fields
    decreases |fields|
  {
    if |fields| == 1 {
      SplitSepFree(fields[0], sep);
    } else {
      assert fields[0] in fields;
      assert forall f | f in fields[1..] :: f in fields;
      SplitAfterField(fields[0], sep, Join(fields[1..], sep));
      SplitJoin(fields[1..], sep);
      assert [fields[0]] + fields[1..] == fields;
    }
  }

  /** Splitting on one character yields one more piece than there are
      occurrences of that character. */
  lemma {:induction false} SplitCharCount(s: string, c: char)
    ensures |Split(s, [c])| == multiset(s)[c] + 1
    decreases |s|
  {
    if |s| < 1 {
      assert s == [];
    } else {
      assert s == [s[0]] + s[1..];
      assert multiset(s) == multiset{s[0]} + multiset(s[1..]);
      if s[..1] == [c] {
        assert s[1..] == s[|[c]|..];
        SplitCharCount(s[1..], c);
      } else {
        assert s[0] != c;
        SplitCharCount(s[1..], c);
      }
    }
  }

  lemma CrlfBorderFree()
    ensures |Crlf| == 2 && BorderFree(Crlf)
  {
    assert Crlf[1..] == "\n";
    assert Crlf[..1] == "\r";
  }

  lemma CharBorderFree(c: char)
    ensures BorderFree([c])
  {
  }

  /** A string without a carriage return never contains CR LF. */
  lemma NoCarriageReturnSepFree(s: string)
    requires '\r' !in s
    ensures !Contains(s, Crlf)
  {
    forall i: nat | i <= |s|
      ensures !OccursAt(s, Crlf, i)
    {
      if i + 2 <= |s| {
        assert s[i..i + 2][0] == s[i];
      }
    }
  }

  /** Decimal digits only: Python's `str.isdecimal()` for ASCII text. */
  predicate IsDecimal(s: string)
  {
    |s| > 0 && forall i | 0 <= i < |s| :: '0' <= s[i] <= '9'
  }

  /** Python's `str(n)` for a non-negative integer. */
  function NatToString(n: nat): (s: string)
    ensures IsDecimal(s)
    ensures n < 10 ==> s == [(n + '0' as int) as char]
  {
    if n < 10 then [(n + '0' as int) as char]
    else NatToString(n / 10) + [(n % 10 + '0' as int) as char]
  }

  /** A string of digits never contains CR LF. */
  lemma DecimalSepFree(s: string)
    requires IsDecimal(s)
    ensures !Contains(s, Crlf)
  {
    forall i: nat | i <= |s|
      ensures !OccursAt(s, Crlf, i)
    {
      if i + 2 <= |s| {
        assert s[i..i + 2][0] == s[i];
      }
    }
  }
}
