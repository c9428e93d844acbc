/** String vocabulary of the JavaScript built-ins the analyzers lean on:
    the `\s` character class, ASCII case folding, `includes`/`startsWith`,
    `trim`, `replace(/\s+/g, " ")`, `split` on one character, and the
    maximal runs of characters that a `split(/[^…]+/)` followed by
    `filter(Boolean)` produces. */
module Text {

  /** JavaScript's `\s` class, which is also the set `String.prototype.trim`
      strips: the WhiteSpace and LineTerminator code points. */
  predicate IsSpace(c: char) {
    var n := c as int;
    n == 0x09 || n == 0x0A || n == 0x0B || n == 0x0C || n == 0x0D || n == 0x20
    || n == 0xA0 || n == 0x1680 || (0x2000 <= n <= 0x200A) || n == 0x2028 || n == 0x2029
    || n == 0x202F || n == 0x205F || n == 0x3000 || n == 0xFEFF
  }

  predicate NotSpace(c: char) {
    !IsSpace(c)
  }

  /** `\d`, which in JavaScript is the ASCII digits only. */
  predicate IsDigit(c: char) {
    '0' <= c <= '9'
  }

  /** The class `[a-z0-9]`. */
  predicate IsLowerAlnum(c: char) {
    'a' <= c <= 'z' || IsDigit(c)
  }

  /** ASCII case folding. */
  function LowerChar(c: char): char {
    if 'A' <= c <= 'Z' then (c as int + 32) as char else c
  }

  function Lower(s: string): (r: string)
    ensures |r| == |s|
    ensures forall i :: 0 <= i < |s| ==> r[i] == LowerChar(s[i])
  {
    seq(|s|, i requires 0 <= i < |s| => LowerChar(s[i]))
  }

  /** `p` occurs in `s` starting at index `i`. */
  predicate OccursAt(s: string, p: string, i: int) {
    0 <= i && i + |p| <= |s| && s[i..i + |p|] == p
  }

  /** `s.includes(p)`. */
  predicate Contains(s: string, p: string) {
    exists i | 0 <= i <= |s| :: OccursAt(s, p, i)
  }

  /** A case-insensitive occurrence of the lower-case literal `p` at `i`. */
  predicate CIAt(s: string, p: string, i: int) {
    OccursAt(Lower(s), p, i)
  }

  /** `s.startsWith(p)`. */
  predicate StartsWith(s: string, p: string) {
    OccursAt(s, p, 0)
  }

  /** A case-insensitive `/p/i.test(s)` for a lower-case ASCII literal `p`. */
  predicate ContainsCI(s: string, p: string) {
    Contains(Lower(s), p)
  }

  /** A character inside the Basic Multilingual Plane: one UTF-16 code unit. */
  predicate InBmp(c: char) {
    (c as int) < 0x10000
  }

  /** `s.length`: the number of UTF-16 code units, two for every character
      outside the Basic Multilingual Plane. */
  function Utf16Length(s: string): (n: nat)
    ensures |s| <= n <= 2 * |s|
    decreases |s|
  {
    if |s| == 0 then 0
    else (if InBmp(s[0]) then 1 else 2) + Utf16Length(s[1..])
  }

  /** The code-unit length of a concatenation is the sum of the parts'. */
  lemma {:induction false} Utf16LengthAppend(a: string, b: string)
    ensures Utf16Length(a + b) == Utf16Length(a) + Utf16Length(b)
    decreases |a|
  {
    if |a| > 0 {
      assert (a + b)[0] == a[0] && (a + b)[1..] == a[1..] + b;
      Utf16LengthAppend(a[1..], b);
    } else {
      assert a + b == b;
    }
  }

  /** The code-unit length equals the character count exactly when every
      character lies in the Basic Multilingual Plane. */
  lemma {:induction false} Utf16LengthBmp(s: string)
    ensures Utf16Length(s) == |s| <==> forall i :: 0 <= i < |s| ==> InBmp(s[i])
    decreases |s|
  {
    if |s| > 0 {
      Utf16LengthBmp(s[1..]);
      if forall i :: 0 <= i < |s[1..]| ==> InBmp(s[1..][i]) {
        assert forall i :: 1 <= i < |s| ==> s[i] == s[1..][i - 1];
      }
    }
  }

  /** `s.trimStart()`. */
  function TrimStart(s: string): (r: string)
    ensures |r| <= |s| && r == s[|s| - |r|..]
    ensures forall i :: 0 <= i < |s| - |r| ==> IsSpace(s[i])
    ensures |r| > 0 ==> !IsSpace(r[0])
    decreases |s|
  {
    if |s| > 0 && IsSpace(s[0]) then TrimStart(s[1..]) else s
  }

  /** `s.trimEnd()`. */
  function TrimEnd(s: string): (r: string)
    ensures |r| <= |s| && r == s[..|r|]
    ensures forall i :: |r| <= i < |s| ==> IsSpace(s[i])
    ensures |r| > 0 ==> !IsSpace(r[|r| - 1])
    decreases |s|
  {
    if |s| > 0 && IsSpace(s[|s| - 1]) then TrimEnd(s[..|s| - 1]) else s
  }

  /** `s.trim()`. */
  function Trim(s: string): string {
    TrimEnd(TrimStart(s))
  }

  /** `s.replace(/\s+/g, " ")`: every maximal run of white space becomes one
      blank. The blank is emitted at the last character of the run. */
  function Collapse(s: string): (r: string)
    ensures forall i :: 0 <= i < |r| ==> IsSpace(r[i]) ==> r[i] == ' '
    ensures |s| == 0 <==> |r| == 0
    ensures |s| > 0 ==> r[0] == if IsSpace(s[0]) then ' ' else s[0]
    decreases |s|
  {
    if |s| == 0 then []
    else
      var rest := Collapse(s[1..]);
      if !IsSpace(s[0]) then [s[0]] + rest
      else if |s| > 1 && IsSpace(s[1]) then rest
      else [' '] + rest
  }

  /** `s.split(sep)` for a one-character separator: the pieces between
      separators, empty ones included; `"".split(sep)` is `[""]`. */
  function SplitOn(s: string, sep: char): (r: seq<string>)
    ensures |r| >= 1
    ensures |r[0]| == 0 <==> |s| == 0 || s[0] == sep
    ensures forall j, m :: 0 <= j < |r| && 0 <= m < |r[j]| ==> r[j][m] != sep
    decreases |s|
  {
    if |s| == 0 then [""]
    else
      var rest := SplitOn(s[1..], sep);
      if s[0] == sep then [""] + rest
      else [[s[0]] + rest[0]] + rest[1..]
  }

  /** `xs.join(sep)`. */
  function Join(xs: seq<string>, sep: string): string
    decreases |xs|
  {
    if |xs| == 0 then ""
    else if |xs| == 1 then xs[0]
    else xs[0] + sep + Join(xs[1..], sep)
  }

  /** `xs.filter(Boolean)` on strings: the non-empty ones, in order. */
  function NonEmpty(xs: seq<string>): (r: seq<string>)
    ensures |r| <= |xs|
    ensures forall j :: 0 <= j < |r| ==> |r[j]| > 0
    ensures forall w :: w in r <==> w in xs && |w| > 0
    decreases |xs|
  {
    if |xs| == 0 then []
    else if |xs[0]| == 0 then NonEmpty(xs[1..])
    else [xs[0]] + NonEmpty(xs[1..])
  }

  /** The maximal runs of characters satisfying `keep`, in order. */
  function Runs(s: string, keep: char -> bool): (r: seq<string>)
    ensures forall j :: 0 <= j < |r| ==> |r[j]| > 0
    ensures forall j, m :: 0 <= j < |r| && 0 <= m < |r[j]| ==> keep(r[j][m])
    ensures |s| > 0 && keep(s[0]) ==> |r| > 0 && r[0][0] == s[0]
    decreases |s|
  {
    if |s| == 0 then []
    else
      var rest := Runs(s[1..], keep);
      if !keep(s[0]) then rest
      else if |s| > 1 && keep(s[1]) then [[s[0]] + rest[0]] + rest[1..]
      else [[s[0]]] + rest
  }

  /** Splitting on one character and joining the pieces back with it is the identity. */
  lemma {:induction false} JoinSplit(s: string, sep: char)
    ensures Join(SplitOn(s, sep), [sep]) == s
    decreases |s|
  {
    if |s| > 0 {
      var rest := SplitOn(s[1..], sep);
      JoinSplit(s[1..], sep);
      if s[0] == sep {
        assert ([""] + rest)[1..] == rest;
      } else {
        var pieces := [[s[0]] + rest[0]] + rest[1..];
        assert pieces[1..] == rest[1..];
        if |rest| > 1 {
          assert Join(rest, [sep]) == rest[0] + [sep] + Join(rest[1..], [sep]);
          assert Join(pieces, [sep]) == ([s[0]] + rest[0]) + [sep] + Join(rest[1..], [sep]);
        }
      }
    }
  }

  /** When `keep` holds exactly of the non-separator characters, dropping the
      empty pieces of a split leaves the maximal runs. */
  lemma {:induction false} SplitIsRuns(s: string, sep: char, keep: char -> bool)
    requires forall i :: 0 <= i < |s| ==> (keep(s[i]) <==> s[i] != sep)
    ensures NonEmpty(SplitOn(s, sep)) == Runs(s, keep)
    decreases |s|
  {
    if |s| > 0 {
      var tail := s[1..];
      forall i | 0 <= i < |tail|
        ensures keep(tail[i]) <==> tail[i] != sep
      {
        assert tail[i] == s[i + 1];
      }
      SplitIsRuns(tail, sep, keep);
      var rest := SplitOn(tail, sep);
      var runs := Runs(tail, keep);
      assert runs == NonEmpty(rest);
      assert keep(s[0]) <==> s[0] != sep;
      if s[0] == sep {
        assert SplitOn(s, sep) == [""] + rest;
        assert ([""] + rest)[1..] == rest;
        assert Runs(s, keep) == runs;
      } else {
        var head := [s[0]] + rest[0];
        var pieces := [head] + rest[1..];
        assert SplitOn(s, sep) == pieces;
        assert pieces[1..] == rest[1..];
        assert NonEmpty(pieces) == [head] + NonEmpty(rest[1..]);
        if |s| > 1 && s[1] != sep {
          assert keep(s[1]);
          assert |rest[0]| > 0;
          assert NonEmpty(rest) == [rest[0]] + NonEmpty(rest[1..]);
          assert runs[0] == rest[0];
          assert runs[1..] == NonEmpty(rest[1..]);
          assert Runs(s, keep) == [[s[0]] + runs[0]] + runs[1..];
          assert Runs(s, keep) == [head] + NonEmpty(rest[1..]);
        } else {
          assert |rest[0]| == 0;
          assert NonEmpty(rest) == NonEmpty(rest[1..]);
          assert Runs(s, keep) == [[s[0]]] + runs;
          assert head == [s[0]];
        }
      }
    }
  }

  /** `s.split(/[^…]+/)` for the character class `keep`: the pieces between
      maximal runs of other characters, with an empty first or last piece
      when `s` starts or ends with such a run; `""` gives `[""]`. */
  function SplitRuns(s: string, keep: char -> bool): (r: seq<string>)
    ensures |r| >= 1
    ensures |s| > 0 && keep(s[0]) ==> |r[0]| > 0 && r[0][0] == s[0]
    ensures |s| > 0 && !keep(s[0]) ==> |r[0]| == 0
    ensures forall j, m :: 0 <= j < |r| && 0 <= m < |r[j]| ==> keep(r[j][m])
    decreases |s|
  {
    if |s| == 0 then [""]
    else
      var rest := SplitRuns(s[1..], keep);
      if keep(s[0]) then [[s[0]] + rest[0]] + rest[1..]
      else if |s| > 1 && !keep(s[1]) then rest
      else [""] + rest
  }

  /** Dropping the empty pieces of a class split leaves the maximal runs of
      the class. */
  lemma {:induction false} SplitRunsAreRuns(s: string, keep: char -> bool)
    ensures NonEmpty(SplitRuns(s, keep)) == Runs(s, keep)
    decreases |s|
  {
    if |s| > 0 {
      SplitRunsAreRuns(s[1..], keep);
      if keep(s[0]) {
        SplitRunsKept(s, keep);
      } else {
        SplitRunsSkipped(s, keep);
      }
    }
  }

  lemma SplitRunsSkipped(s: string, keep: char -> bool)
    requires |s| > 0 && !keep(s[0])
    ensures NonEmpty(SplitRuns(s, keep)) == NonEmpty(SplitRuns(s[1..], keep))
    ensures Runs(s, keep) == Runs(s[1..], keep)
  {
    var rest := SplitRuns(s[1..], keep);
    if !(|s| > 1 && !keep(s[1])) {
      assert SplitRuns(s, keep) == [""] + rest;
      assert ([""] + rest)[1..] == rest;
    }
  }

  lemma SplitRunsKept(s: string, keep: char -> bool)
    requires |s| > 0 && keep(s[0])
    requires NonEmpty(SplitRuns(s[1..], keep)) == Runs(s[1..], keep)
    ensures NonEmpty(SplitRuns(s, keep)) == Runs(s, keep)
  {
    var rest := SplitRuns(s[1..], keep);
    var pieces := [[s[0]] + rest[0]] + rest[1..];
    assert SplitRuns(s, keep) == pieces;
    assert pieces[1..] == rest[1..];
    assert NonEmpty(pieces) == [pieces[0]] + NonEmpty(rest[1..]);
    if |s| > 1 && keep(s[1]) {
      KeptThenKept(s, keep, rest);
    } else {
      KeptThenEnd(s, keep, rest);
    }
  }

  lemma KeptThenKept(s: string, keep: char -> bool, rest: seq<string>)
    requires |s| > 1 && keep(s[0]) && keep(s[1])
    requires rest == SplitRuns(s[1..], keep)
    requires NonEmpty(rest) == Runs(s[1..], keep)
    ensures Runs(s, keep) == [[s[0]] + rest[0]] + NonEmpty(rest[1..])
  {
    var runs := Runs(s[1..], keep);
    assert |rest[0]| > 0;
    assert NonEmpty(rest) == [rest[0]] + NonEmpty(rest[1..]);
    assert Runs(s, keep) == [[s[0]] + runs[0]] + runs[1..];
  }

  lemma KeptThenEnd(s: string, keep: char -> bool, rest: seq<string>)
    requires |s| > 0 && keep(s[0]) && !(|s| > 1 && keep(s[1]))
    requires rest == SplitRuns(s[1..], keep)
    requires NonEmpty(rest) == Runs(s[1..], keep)
    ensures Runs(s, keep) == [[s[0]] + rest[0]] + NonEmpty(rest[1..])
  {
    assert |rest[0]| == 0;
    assert NonEmpty(rest) == NonEmpty(rest[1..]);
    assert Runs(s, keep) == [[s[0]]] + Runs(s[1..], keep);
    assert [s[0]] + rest[0] == [s[0]];
  }

  /** A trailing character outside the kept class adds no run. */
  lemma {:induction false} RunsSnoc(s: string, c: char, keep: char -> bool)
    requires !keep(c)
    ensures Runs(s + [c], keep) == Runs(s, keep)
    decreases |s|
  {
    if |s| == 0 {
      assert [c][1..] == [];
    } else {
      assert (s + [c])[1..] == s[1..] + [c];
      RunsSnoc(s[1..], c, keep);
    }
  }

  /** Trimming leaves the runs of any class without white space unchanged. */
  lemma {:induction false} RunsTrim(s: string, keep: char -> bool)
    requires forall c :: keep(c) ==> NotSpace(c)
    ensures Runs(Trim(s), keep) == Runs(s, keep)
  {
    RunsTrimStart(s, keep);
    RunsTrimEnd(TrimStart(s), keep);
  }

  lemma {:induction false} RunsTrimStart(s: string, keep: char -> bool)
    requires forall c :: keep(c) ==> NotSpace(c)
    ensures Runs(TrimStart(s), keep) == Runs(s, keep)
    decreases |s|
  {
    if |s| > 0 && IsSpace(s[0]) {
      RunsTrimStart(s[1..], keep);
    }
  }

  lemma {:induction false} RunsTrimEnd(s: string, keep: char -> bool)
    requires forall c :: keep(c) ==> NotSpace(c)
    ensures Runs(TrimEnd(s), keep) == Runs(s, keep)
    decreases |s|
  {
    if |s| > 0 && IsSpace(s[|s| - 1]) {
      var init := s[..|s| - 1];
      assert s == init + [s[|s| - 1]];
      RunsSnoc(init, s[|s| - 1], keep);
      RunsTrimEnd(init, keep);
    }
  }

  /** Collapsing white space leaves the runs of any class without white
      space unchanged. */
  lemma {:induction false} RunsCollapse(s: string, keep: char -> bool)
    requires forall c :: keep(c) ==> NotSpace(c)
    ensures Runs(Collapse(s), keep) == Runs(s, keep)
    decreases |s|
  {
    if |s| > 0 {
      RunsCollapse(s[1..], keep);
      var rest := Collapse(s[1..]);
      if !IsSpace(s[0]) {
        var cs := [s[0]] + rest;
        assert cs[1..] == rest;
        assert |s| > 1 ==> (keep(cs[1]) <==> keep(s[1]));
      } else if |s| > 1 && IsSpace(s[1]) {
      } else {
        var cs := [' '] + rest;
        assert cs[1..] == rest;
      }
    }
  }

  /** Case folding keeps white space white space, so it commutes with
      trimming and with collapsing. */
  lemma {:induction false} LowerTrimStart(s: string)
    ensures Lower(TrimStart(s)) == TrimStart(Lower(s))
    decreases |s|
  {
    if |s| > 0 && IsSpace(s[0]) {
      LowerTrimStart(s[1..]);
      LowerDropSpace(s);
    } else {
      var ls := Lower(s);
      assert |s| > 0 ==> !IsSpace(ls[0]);
    }
  }

  lemma LowerDropSpace(s: string)
    requires |s| > 0 && IsSpace(s[0])
    ensures TrimStart(Lower(s)) == TrimStart(Lower(s[1..]))
  {
    var ls := Lower(s);
    assert IsSpace(ls[0]);
    assert ls[1..] == Lower(s[1..]);
  }

  lemma {:induction false} LowerTrimEnd(s: string)
    ensures Lower(TrimEnd(s)) == TrimEnd(Lower(s))
    decreases |s|
  {
    var ls := Lower(s);
    if |s| > 0 && IsSpace(s[|s| - 1]) {
      assert IsSpace(ls[|s| - 1]) && TrimEnd(ls) == TrimEnd(ls[..|s| - 1]);
      assert ls[..|s| - 1] == Lower(s[..|s| - 1]);
      LowerTrimEnd(s[..|s| - 1]);
    } else {
      assert TrimEnd(s) == s;
      assert |s| > 0 ==> !IsSpace(ls[|s| - 1]);
      assert TrimEnd(ls) == ls;
    }
  }

  lemma LowerTrim(s: string)
    ensures Lower(Trim(s)) == Trim(Lower(s))
  {
    LowerTrimStart(s);
    LowerTrimEnd(TrimStart(s));
  }

  lemma {:induction false} LowerCollapse(s: string)
    ensures Lower(Collapse(s)) == Collapse(Lower(s))
    decreases |s|
  {
    if |s| > 0 {
      var ls := Lower(s);
      assert ls[1..] == Lower(s[1..]);
      LowerCollapse(s[1..]);
      var rest := Collapse(s[1..]);
      if !IsSpace(s[0]) {
        assert Collapse(s) == [s[0]] + rest;
        assert !IsSpace(ls[0]) && Collapse(ls) == [ls[0]] + Collapse(ls[1..]);
        assert Lower([s[0]] + rest) == [ls[0]] + Lower(rest);
      } else if |s| > 1 && IsSpace(s[1]) {
        assert Collapse(s) == rest;
        assert IsSpace(ls[0]) && IsSpace(ls[1]) && Collapse(ls) == Collapse(ls[1..]);
      } else {
        assert Collapse(s) == [' '] + rest;
        assert IsSpace(ls[0]) && !(|ls| > 1 && IsSpace(ls[1]));
        assert Collapse(ls) == [' '] + Collapse(ls[1..]);
        assert Lower([' '] + rest) == [' '] + Lower(rest);
      }
    }
  }

  /** The runs of a class without white space are the same in the
      collapsed, trimmed and lower-cased text as in the lower-cased text. */
  lemma RunsFolded(s: string, keep: char -> bool)
    requires forall c :: keep(c) ==> NotSpace(c)
    ensures Runs(Lower(Trim(Collapse(s))), keep) == Runs(Lower(s), keep)
  {
    LowerTrim(Collapse(s));
    LowerCollapse(s);
    assert Lower(Trim(Collapse(s))) == Trim(Collapse(Lower(s)));
    RunsTrim(Collapse(Lower(s)), keep);
    RunsCollapse(Lower(s), keep);
  }

  /** After collapsing and trimming, the only white space left is the blank. */
  lemma BlankOnlyTrimCollapse(s: string)
    ensures forall i :: 0 <= i < |Trim(Collapse(s))| ==> (NotSpace(Trim(Collapse(s))[i]) <==> Trim(Collapse(s))[i] != ' ')
  {
    var c := Collapse(s);
    var a := TrimStart(c);
    var t := TrimEnd(a);
    forall i | 0 <= i < |t|
      ensures NotSpace(t[i]) <==> t[i] != ' '
    {
      assert t[i] == a[i];
      assert a[i] == c[|c| - |a| + i];
    }
  }

  /** Every character is white space (the empty string included). */
  predicate Blank(s: string) {
    forall i :: 0 <= i < |s| ==> IsSpace(s[i])
  }

  /** `s.trim()` is empty exactly when `s` is all white space. */
  lemma TrimEmptyIffBlank(s: string)
    ensures |Trim(s)| == 0 <==> Blank(s)
  {
    var a := TrimStart(s);
    var r := TrimEnd(a);
    if |r| > 0 {
      assert r[0] == a[0] == s[|s| - |a|];
    }
  }

  /** The trimmed string has no white space at either end, so trimming again
      changes nothing. */
  lemma TrimIdempotent(s: string)
    ensures Trim(Trim(s)) == Trim(s)
  {
    var t := Trim(s);
    var a := TrimStart(s);
    if |t| > 0 {
      assert t[0] == a[0];
    }
  }

  /** Folding twice is folding once. */
  lemma LowerIdempotent(s: string)
    ensures Lower(Lower(s)) == Lower(s)
  {
  }

  /** `s.trim()` is the slice of `s` between its leading and trailing white space. */
  lemma TrimSlice(s: string) returns (a: nat, b: nat)
    ensures a <= b <= |s| && Trim(s) == s[a..b]
    ensures forall k :: 0 <= k < a ==> IsSpace(s[k])
    ensures forall k :: b <= k < |s| ==> IsSpace(s[k])
  {
    var t := TrimStart(s);
    a := |s| - |t|;
    b := a + |Trim(s)|;
    assert t == s[a..];
    assert Trim(s) == t[..|Trim(s)|];
    forall k | b <= k < |s|
      ensures IsSpace(s[k])
    {
      assert s[k] == t[k - a];
    }
  }

  /** Occurrences inside a slice are occurrences in the whole, shifted. */
  lemma OccursInSlice(s: string, p: string, a: int, b: int, i: int)
    requires 0 <= a <= b <= |s|
    ensures OccursAt(s[a..b], p, i) <==> 0 <= i && a + i + |p| <= b && OccursAt(s, p, a + i)
  {
    if 0 <= i && a + i + |p| <= b {
      var u := s[a..b][i..i + |p|];
      var v := s[a + i..a + i + |p|];
      assert |u| == |v|;
      forall k | 0 <= k < |u| ensures u[k] == v[k] {
        assert u[k] == s[a + i + k];
      }
      assert u == v;
    }
  }

  lemma LowerSlice(s: string, a: int, b: int)
    requires 0 <= a <= b <= |s|
    ensures Lower(s[a..b]) == Lower(s)[a..b]
  {
  }

  lemma SliceContains(s: string, p: string, a: int, b: int)
    requires 0 <= a <= b <= |s|
    ensures Contains(s[a..b], p) ==> Contains(s, p)
  {
    if Contains(s[a..b], p) {
      var i :| 0 <= i <= |s[a..b]| && OccursAt(s[a..b], p, i);
      OccursInSlice(s, p, a, b, i);
    }
  }

  lemma OccursEnds(s: string, p: string, i: int)
    requires |p| > 0 && OccursAt(s, p, i)
    ensures s[i] == p[0] && s[i + |p| - 1] == p[|p| - 1]
  {
    assert s[i..i + |p|][0] == p[0];
    assert s[i..i + |p|][|p| - 1] == p[|p| - 1];
  }

  /** Cutting white space off both ends of `s` cannot remove an occurrence of
      a string that starts and ends outside white space. */
  lemma ContainsWindow(s: string, p: string, a: int, b: int)
    requires 0 <= a <= b <= |s|
    requires forall k :: 0 <= k < a ==> IsSpace(s[k])
    requires forall k :: b <= k < |s| ==> IsSpace(s[k])
    requires |p| > 0 && !IsSpace(p[0]) && !IsSpace(p[|p| - 1])
    ensures Contains(Lower(s[a..b]), p) <==> Contains(Lower(s), p)
  {
    var ls := Lower(s);
    LowerSlice(s, a, b);
    SliceContains(ls, p, a, b);
    if Contains(ls, p) {
      var i :| 0 <= i <= |ls| && OccursAt(ls, p, i);
      OccursEnds(ls, p, i);
      assert !IsSpace(s[i]) && !IsSpace(s[i + |p| - 1]);
      OccursInSlice(ls, p, a, b, i - a);
    }
  }

  /** Trimming cannot remove an occurrence of a string that starts and ends
      outside white space. */
  lemma ContainsTrim(s: string, p: string)
    requires |p| > 0 && !IsSpace(p[0]) && !IsSpace(p[|p| - 1])
    ensures Contains(Lower(Trim(s)), p) <==> Contains(Lower(s), p)
  {
    var a, b := TrimSlice(s);
    ContainsWindow(s, p, a, b);
  }

  /** The first index at or after `k` whose character satisfies `stop`, or the end. */
  function RunEnd(s: string, k: nat, stop: char -> bool): (m: nat)
    requires k <= |s|
    ensures k <= m <= |s|
    ensures forall j :: k <= j < m ==> !stop(s[j])
    ensures m < |s| ==> stop(s[m])
    decreases |s| - k
  {
    if k == |s| || stop(s[k]) then k else RunEnd(s, k + 1, stop)
  }

  /** The value of a string of decimal digits (a non-digit counts as 0). */
  function DecimalValue(k: string): nat
    decreases |k|
  {
    if |k| == 0 then 0
    else DecimalValue(k[..|k| - 1]) * 10 + (if IsDigit(k[|k| - 1]) then k[|k| - 1] as int - '0' as int else 0)
  }

  predicate AllDigits(k: string)
    decreases |k|
  {
    |k| == 0 || (IsDigit(k[0]) && AllDigits(k[1..]))
  }
}
