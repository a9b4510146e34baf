/**
  The three functions of Go's `strings` package the gateways rely on, for the
  arguments they are called with: `Split` on a one-character separator,
  `HasPrefix`, and `Replace(s, old, "", -1)` with a non-empty `old`.
 */
module GoStrings {

  /** Number of occurrences of `c` in `s`. */
  function Count(s: string, c: char): nat {
    if |s| == 0 then 0 else (if s[0] == c then 1 else 0) + Count(s[1..], c)
  }

  /** Inverse of `Split`: the parts glued back together with `sep` between them. */
  function Join(parts: seq<string>, sep: char): string {
    if |parts| == 0 then ""
    else if |parts| == 1 then parts[0]
    else parts[0] + [sep] + Join(parts[1..], sep)
  }

  /**
    `strings.Split(s, string(sep))`: the maximal pieces of `s` between the
    occurrences of `sep`. There is always at least one piece (the empty string
    splits into one empty piece), no piece contains `sep`, and joining the
    pieces back gives `s`.
   */
  function Split(s: string, sep: char): (parts: seq<string>)
    ensures |parts| == Count(s, sep) + 1
    ensures forall i :: 0 <= i < |parts| ==> sep !in parts[i]
    ensures Join(parts, sep) == s
    decreases |s|
  {
    if |s| == 0 then [""]
    else
      var rest := Split(s[1..], sep);
      if s[0] == sep then
        assert s == [s[0]] + s[1..];
        [""] + rest
      else
        var parts := [[s[0]] + rest[0]] + rest[1..];
        assert Join(parts, sep) == s by {
          if |rest| == 1 {
            assert s == [s[0]] + rest[0];
          } else {
            assert parts[1..] == rest[1..];
            assert Join(rest, sep) == rest[0] + [sep] + Join(rest[1..], sep);
            assert s == [s[0]] + s[1..];
          }
        }
        parts
  }

  /** Splitting a joined list of separator-free pieces gives the pieces back. */
  lemma {:induction false} SplitJoin(parts: seq<string>, sep: char)
    requires |parts| >= 1
    requires forall i :: 0 <= i < |parts| ==> sep !in parts[i]
    ensures Split(Join(parts, sep), sep) == parts
    decreases |parts|, |parts[0]|
  {
    if |parts| == 1 {
      SplitNoSep(parts[0], sep);
    } else if |parts[0]| == 0 {
      var tail := Join(parts[1..], sep);
      assert Join(parts, sep) == [sep] + tail;
      SplitJoin(parts[1..], sep);
      assert ([sep] + tail)[1..] == tail;
      assert parts == [""] + parts[1..];
    } else {
      var c := parts[0][0];
      var shorter := [parts[0][1..]] + parts[1..];
      assert sep !in parts[0][1..];
      assert forall i :: 0 <= i < |shorter| ==> sep !in shorter[i] by {
        forall i | 0 <= i < |shorter| ensures sep !in shorter[i] {
          if i > 0 { assert shorter[i] == parts[i]; }
        }
      }
      SplitJoin(shorter, sep);
      assert shorter[1..] == parts[1..];
      assert Join(shorter, sep) == Join(parts, sep)[1..] by {
        if |parts| == 1 {
        } else {
          assert Join(parts, sep) == parts[0] + [sep] + Join(parts[1..], sep);
          assert parts[0] == [c] + parts[0][1..];
        }
      }
      var s := Join(parts, sep);
      assert s[0] == c;
      assert c != sep;
      assert [[c] + shorter[0]] + shorter[1..] == parts by {
        assert [c] + parts[0][1..] == parts[0];
      }
    }
  }

  /** A string with no separator splits into itself alone. */
  lemma {:induction false} SplitNoSep(s: string, sep: char)
    requires sep !in s
    ensures Split(s, sep) == [s]
    decreases |s|
  {
    if |s| > 0 {
      SplitNoSep(s[1..], sep);
      assert s == [s[0]] + s[1..];
    }
  }

  /** `strings.HasPrefix`. */
  predicate HasPrefix(s: string, prefix: string) {
    |prefix| <= |s| && s[..|prefix|] == prefix
  }

  /** Whether `pat` occurs anywhere in `s`. */
  predicate Contains(s: string, pat: string)
    decreases |s|
  {
    HasPrefix(s, pat) || (|s| > 0 && Contains(s[1..], pat))
  }

  /**
    `strings.Replace(s, pat, "", -1)`: every leftmost, non-overlapping
    occurrence of `pat`, scanning left to right, is removed.
   */
  function RemoveAll(s: string, pat: string): (r: string)
    requires |pat| > 0
    ensures |r| <= |s|
    ensures HasPrefix(s, pat) ==> |r| <= |s| - |pat|
    decreases |s|
  {
    if |s| == 0 then ""
    else if HasPrefix(s, pat) then RemoveAll(s[|pat|..], pat)
    else [s[0]] + RemoveAll(s[1..], pat)
  }

  /** No character after the first of `pat` equals its first: no proper suffix of `pat` starts it again. */
  predicate FirstCharUnique(pat: string) {
    |pat| > 0 && forall k :: 0 < k < |pat| ==> pat[k] != pat[0]
  }

  /**
    Removal proceeds occurrence by occurrence: text `a` free of the pattern is
    kept, the next occurrence is dropped, and removal carries on in `b`. It
    holds for any pattern whose first character does not recur in it, as with
    "Bearer ", so no occurrence can start inside `a` and end in the next one.
   */
  lemma {:induction false} RemoveAllStep(a: string, pat: string, b: string)
    requires FirstCharUnique(pat)
    requires !Contains(a, pat)
    ensures RemoveAll(a + pat + b, pat) == a + RemoveAll(b, pat)
    decreases |a|
  {
    var s := a + pat + b;
    if |a| == 0 {
      assert s == pat + b;
      assert HasPrefix(s, pat);
      assert s[|pat|..] == b;
    } else {
      assert !HasPrefix(s, pat) by {
        if |a| >= |pat| {
          assert s[..|pat|] == a[..|pat|];
          assert !HasPrefix(a, pat);
        } else {
          assert s[|a|] == pat[0];
          assert pat[|a|] != pat[0];
        }
      }
      assert !Contains(a[1..], pat);
      RemoveAllStep(a[1..], pat, b);
      assert s[1..] == a[1..] + pat + b;
      assert a == [a[0]] + a[1..];
    }
  }

  /** Removing a pattern that does not occur leaves the string as it was. */
  lemma {:induction false} RemoveAllAbsent(s: string, pat: string)
    requires |pat| > 0
    requires !Contains(s, pat)
    ensures RemoveAll(s, pat) == s
    decreases |s|
  {
    if |s| > 0 {
      RemoveAllAbsent(s[1..], pat);
      assert s == [s[0]] + s[1..];
    }
  }
}
