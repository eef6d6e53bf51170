/** The few string operations of Go's `strings` package that the modelled
    code relies on, over `string` = `seq<char>`. */
module Text {

  /** `strings.Replace(s, [c], "", -1)`: every occurrence of `c` deleted. */
  function Remove(s: string, c: char): (r: string)
    ensures c !in r
    ensures |r| <= |s|
    ensures forall d | d != c :: d in r <==> d in s
  {
    if s == [] then []
    else if s[0] == c then Remove(s[1..], c)
    else [s[0]] + Remove(s[1..], c)
  }

  /** Deleting `c` leaves a string that does not hold it alone. */
  lemma {:induction false} RemoveAbsent(s: string, c: char)
    requires c !in s
    ensures Remove(s, c) == s
  {
    if s != [] {
      assert s[0] != c;
      RemoveAbsent(s[1..], c);
      assert s == [s[0]] + s[1..];
    }
  }

  /** Deletion works piecewise on a concatenation. */
  lemma {:induction false} RemoveConcat(a: string, b: string, c: char)
    ensures Remove(a + b, c) == Remove(a, c) + Remove(b, c)
  {
    if a == [] {
      assert a + b == b;
    } else {
      assert (a + b)[0] == a[0];
      assert (a + b)[1..] == a[1..] + b;
      RemoveConcat(a[1..], b, c);
    }
  }

  /** `strings.Split(s, [c])`: the fields between the occurrences of `c`;
      k separators give k + 1 fields, so the empty string gives one empty field. */
  function Split(s: string, c: char): (r: seq<string>)
    ensures |r| >= 1
    ensures forall i | 0 <= i < |r| :: c !in r[i]
  {
    if s == [] then [""]
    else
      var rest := Split(s[1..], c);
      if s[0] == c then [""] + rest
      else [[s[0]] + rest[0]] + rest[1..]
  }

  /** `strings.Join(fs, [c])`. */
  function Join(fs: seq<string>, c: char): (r: string)
    requires |fs| >= 1
    ensures |r| >= |fs| - 1
  {
    if |fs| == 1 then fs[0] else fs[0] + [c] + Join(fs[1..], c)
  }

  /** A character that is neither the separator nor in any field is not in
      the join. */
  lemma {:induction false} JoinAvoids(fs: seq<string>, c: char, d: char)
    requires |fs| >= 1 && d != c && forall i | 0 <= i < |fs| :: d !in fs[i]
    ensures d !in Join(fs, c)
  {
    if |fs| > 1 {
      JoinAvoids(fs[1..], c, d);
    }
  }

  /** Joining the fields of a split gives back the string. */
  lemma {:induction false} JoinSplit(s: string, c: char)
    ensures Join(Split(s, c), c) == s
  {
    if s != [] {
      var rest := Split(s[1..], c);
      JoinSplit(s[1..], c);
      if s[0] == c {
        assert Split(s, c)[1..] == rest;
      } else {
        var r := Split(s, c);
        assert r[0] == [s[0]] + rest[0] && r[1..] == rest[1..];
        if |rest| == 1 {
          assert Join(r, c) == [s[0]] + rest[0];
        } else {
          assert Join(rest, c) == rest[0] + [c] + Join(rest[1..], c);
        }
      }
      assert s == [s[0]] + s[1..];
    }
  }

  /** Splitting a join of separator-free fields gives back the fields. */
  lemma {:induction false} SplitJoin(fs: seq<string>, c: char)
    requires |fs| >= 1 && forall i | 0 <= i < |fs| :: c !in fs[i]
    ensures Split(Join(fs, c), c) == fs
  {
    if |fs| == 1 {
      SplitField(fs[0], "", c);
    } else {
      SplitJoin(fs[1..], c);
      SplitField(fs[0], Join(fs[1..], c), c);
      assert [fs[0]] + Split(Join(fs[1..], c), c) == fs;
    }
  }

  /** A separator-free `f` is a single field, and ahead of a separator it
      is the first field. */
  lemma {:induction false} SplitField(f: string, tail: string, c: char)
    requires c !in f
    ensures Split(f, c) == [f]
    ensures Split(f + [c] + tail, c) == [f] + Split(tail, c)
    decreases |f|
  {
    if f == [] {
      assert f + [c] + tail == [c] + tail;
      assert ([c] + tail)[1..] == tail;
    } else {
      SplitField(f[1..], tail, c);
      assert f == [f[0]] + f[1..];
      var s := f + [c] + tail;
      assert s[0] == f[0] && s[1..] == f[1..] + [c] + tail;
    }
  }

  /** The number of occurrences of `c` in `s`. */
  function Count(s: string, c: char): (n: nat)
    ensures n <= |s|
    ensures n == 0 <==> c !in s
  {
    if s == [] then 0 else (if s[0] == c then 1 else 0) + Count(s[1..], c)
  }

  /** A split yields one field more than there are separators. */
  lemma {:induction false} SplitCount(s: string, c: char)
    ensures |Split(s, c)| == Count(s, c) + 1
  {
    if s != [] {
      SplitCount(s[1..], c);
    }
  }

  // -------------------------------------------------------------------
  // Character classes of Go's RE2 syntax and strings.Contains/ToLower
  // -------------------------------------------------------------------

  /** `[A-Za-z]` */
  predicate IsLetter(c: char) {
    'a' <= c <= 'z' || 'A' <= c <= 'Z'
  }

  /** `\w` in RE2: `[0-9A-Za-z_]` */
  predicate IsWordChar(c: char) {
    IsLetter(c) || '0' <= c <= '9' || c == '_'
  }

  predicate AllLetters(s: string) {
    forall i | 0 <= i < |s| :: IsLetter(s[i])
  }

  predicate AllWordChars(s: string) {
    forall i | 0 <= i < |s| :: IsWordChar(s[i])
  }

  /** `strings.HasPrefix(s, p)` */
  predicate HasPrefix(s: string, p: string) {
    |p| <= |s| && s[..|p|] == p
  }

  /** `strings.Contains(s, sub)`: `sub` starts at some position of `s`
      (the empty string is in every string). */
  predicate Contains(s: string, sub: string)
    decreases |s|
  {
    HasPrefix(s, sub) || (s != [] && Contains(s[1..], sub))
  }

  /** A string that holds a non-empty `sub` holds its first character. */
  lemma {:induction false} ContainsFirst(s: string, sub: string)
    requires sub != [] && Contains(s, sub)
    ensures sub[0] in s
    decreases |s|
  {
    if HasPrefix(s, sub) {
      assert s[0] == sub[0];
    } else {
      ContainsFirst(s[1..], sub);
    }
  }

  /** `strings.ToLower` on ASCII text: `A`..`Z` become `a`..`z`. */
  function ToLowerChar(c: char): (d: char)
    ensures 'A' <= c <= 'Z' ==> 'a' <= d <= 'z' && d as int - c as int == 32
    ensures !('A' <= c <= 'Z') ==> d == c
  {
    if 'A' <= c <= 'Z' then (c as int + 32) as char else c
  }

  function ToLowerAscii(s: string): (r: string)
    ensures |r| == |s|
    ensures forall i | 0 <= i < |s| :: r[i] == ToLowerChar(s[i])
  {
    if s == [] then [] else [ToLowerChar(s[0])] + ToLowerAscii(s[1..])
  }

  /** Lowercasing keeps letters letters and word characters word characters,
      leaves no upper-case letter, and a second pass changes nothing. */
  lemma ToLowerClasses(s: string)
    ensures forall i | 0 <= i < |s| :: IsLetter(s[i]) <==> IsLetter(ToLowerAscii(s)[i])
    ensures forall i | 0 <= i < |s| :: IsWordChar(s[i]) <==> IsWordChar(ToLowerAscii(s)[i])
    ensures forall i | 0 <= i < |s| :: !('A' <= ToLowerAscii(s)[i] <= 'Z')
    ensures ToLowerAscii(ToLowerAscii(s)) == ToLowerAscii(s)
  {
  }
}
