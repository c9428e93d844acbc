/** The keyword-consistency table of the on-page audit: tokens of the
    visible text, word and adjacent-pair frequency tables built in a plain
    object, the order `Object.entries` lists them in, the stable descending
    sort by frequency, and the top five rows with their substring checks
    against the title, meta description and headings. */
module Keywords {
  import opened Common
  import opened Text

  /** The fixed stop-word set. */
  const Stopwords: set<string> := {
    "the", "and", "to", "of", "in", "a", "is", "for", "on", "by", "with", "it", "this", "that",
    "at", "from", "as", "an", "be", "are", "or", "your", "we", "you", "our", "their"
  }

  /** A token the table keeps: non-empty and not a stop word. */
  predicate IsKeyword(w: string) {
    |w| > 0 && w !in Stopwords
  }

  /** `filter((w) => w && !stop.has(w))`. */
  function DropStopwords(ws: seq<string>): (r: seq<string>)
    ensures forall j :: 0 <= j < |r| ==> IsKeyword(r[j])
    ensures forall w :: IsKeyword(w) ==> multiset(r)[w] == multiset(ws)[w]
    ensures forall w :: w in r ==> w in ws
    decreases |ws|
  {
    if |ws| == 0 then []
    else
      var rest := DropStopwords(ws[1..]);
      assert ws == [ws[0]] + ws[1..];
      assert multiset(ws) == multiset{ws[0]} + multiset(ws[1..]);
      if IsKeyword(ws[0]) then
        var r := [ws[0]] + rest;
        assert multiset(r) == multiset{ws[0]} + multiset(rest);
        r
      else
        rest
  }

  /** The keyword tokens of the visible text: white space collapsed and
      trimmed, lower-cased, split on runs of characters outside `[a-z0-9]`,
      empty strings and stop words dropped. */
  function Tokens(visibleText: string): (ws: seq<string>)
    ensures forall j :: 0 <= j < |ws| ==> IsKeyword(ws[j])
    ensures forall j, m :: 0 <= j < |ws| && 0 <= m < |ws[j]| ==> IsLowerAlnum(ws[j][m])
  {
    var pieces := SplitRuns(Lower(Trim(Collapse(visibleText))), IsLowerAlnum);
    KeptPiecesAlnum(pieces);
    DropStopwords(NonEmpty(pieces))
  }

  lemma KeptPiecesAlnum(pieces: seq<string>)
    requires forall j, m :: 0 <= j < |pieces| && 0 <= m < |pieces[j]| ==> IsLowerAlnum(pieces[j][m])
    ensures forall j, m :: 0 <= j < |DropStopwords(NonEmpty(pieces))| && 0 <= m < |DropStopwords(NonEmpty(pieces))[j]| ==>
      IsLowerAlnum(DropStopwords(NonEmpty(pieces))[j][m])
  {
    var kept := NonEmpty(pieces);
    var ws := DropStopwords(kept);
    forall j | 0 <= j < |ws|
      ensures forall m :: 0 <= m < |ws[j]| ==> IsLowerAlnum(ws[j][m])
    {
      assert ws[j] in kept;
      var k :| 0 <= k < |pieces| && pieces[k] == ws[j];
    }
  }

  /** The tokens are the maximal runs of `[a-z0-9]` in the lower-cased
      visible text, in order, stop words left out: collapsing and trimming
      white space cannot split or join such a run. */
  lemma TokensAreRuns(visibleText: string)
    ensures Tokens(visibleText) == DropStopwords(Runs(Lower(visibleText), IsLowerAlnum))
  {
    var folded := Lower(Trim(Collapse(visibleText)));
    assert Tokens(visibleText) == DropStopwords(NonEmpty(SplitRuns(folded, IsLowerAlnum)));
    SplitRunsAreRuns(folded, IsLowerAlnum);
    RunsFolded(visibleText, IsLowerAlnum);
  }

  /* ---------------- frequency tables ---------------- */

  /** One own property of a counting object: its key and its count. */
  datatype Entry = Entry(key: string, count: nat)

  function Keys(t: seq<Entry>): (ks: seq<string>)
    ensures |ks| == |t|
    ensures forall i :: 0 <= i < |t| ==> ks[i] == t[i].key
    decreases |t|
  {
    if |t| == 0 then [] else [t[0].key] + Keys(t[1..])
  }

  predicate Distinct(ks: seq<string>) {
    forall i, j :: 0 <= i < j < |ks| ==> ks[i] != ks[j]
  }

  /** `counts[k] || 0`. */
  function CountOf(t: seq<Entry>, k: string): nat
    decreases |t|
  {
    if |t| == 0 then 0
    else if t[0].key == k then t[0].count
    else CountOf(t[1..], k)
  }

  function Sum(t: seq<Entry>): nat
    decreases |t|
  {
    if |t| == 0 then 0 else t[0].count + Sum(t[1..])
  }

  /** `counts[w] = (counts[w] || 0) + 1`: an existing key keeps its place,
      a new key is added at the end. */
  function Bump(t: seq<Entry>, w: string): (r: seq<Entry>)
    ensures Keys(r) == if w in Keys(t) then Keys(t) else Keys(t) + [w]
    decreases |t|
  {
    if |t| == 0 then [Entry(w, 1)]
    else if t[0].key == w then
      var r := [Entry(w, t[0].count + 1)] + t[1..];
      assert r[1..] == t[1..];
      assert Keys(r) == Keys(t);
      r
    else
      var rest := Bump(t[1..], w);
      var r := [t[0]] + rest;
      assert r[1..] == rest;
      var ks := Keys(t[1..]);
      assert Keys(r) == [t[0].key] + Keys(rest);
      assert w in Keys(t) <==> w in ks;
      if w in ks then r
      else
        assert Keys(r) == [t[0].key] + (ks + [w]) == ([t[0].key] + ks) + [w];
        r
  }

  /** Each increment adds one to the total, and no count is ever zero. */
  lemma {:induction false} BumpSum(t: seq<Entry>, w: string)
    ensures forall k :: CountOf(Bump(t, w), k) == CountOf(t, k) + (if k == w then 1 else 0)
    ensures Sum(Bump(t, w)) == Sum(t) + 1
    ensures (forall e :: e in t ==> e.count > 0) ==> forall e :: e in Bump(t, w) ==> e.count > 0
    decreases |t|
  {
    if |t| > 0 && t[0].key != w {
      BumpSum(t[1..], w);
      var r := Bump(t, w);
      assert r[1..] == Bump(t[1..], w);
    } else if |t| > 0 {
      var r := Bump(t, w);
      assert r[1..] == t[1..];
    }
  }

  /** The counting object after the loop over `ws`. */
  function Tally(ws: seq<string>): (r: seq<Entry>)
    ensures Distinct(Keys(r))
    ensures forall k :: CountOf(r, k) == multiset(ws)[k]
    ensures Sum(r) == |ws|
    ensures forall e :: e in r ==> e.count > 0
    decreases |ws|
  {
    if |ws| == 0 then []
    else
      var init := ws[..|ws| - 1];
      var w := ws[|ws| - 1];
      assert ws == init + [w];
      var t := Tally(init);
      var r := Bump(t, w);
      BumpSum(t, w);
      assert Distinct(Keys(r)) by {
        if w !in Keys(t) {
          assert Keys(r) == Keys(t) + [w];
        }
      }
      r
  }

  /** With distinct keys, an entry's count is the count looked up by its key. */
  lemma {:induction false} EntryCount(t: seq<Entry>, e: Entry)
    requires Distinct(Keys(t))
    requires e in t
    ensures CountOf(t, e.key) == e.count
    decreases |t|
  {
    if t[0] != e {
      assert e in t[1..];
      assert Keys(t[1..]) == Keys(t)[1..];
      EntryCount(t[1..], e);
    }
  }

  /** A key with a positive count has an entry holding that count. */
  lemma {:induction false} CountedKeyHasEntry(t: seq<Entry>, k: string)
    requires CountOf(t, k) > 0
    ensures Entry(k, CountOf(t, k)) in t
    decreases |t|
  {
    if t[0].key != k {
      CountedKeyHasEntry(t[1..], k);
    }
  }

  /** Every entry of the word table carries the number of occurrences of its
      key among the tokens, and every token has an entry. */
  lemma TallyEntries(ws: seq<string>)
    ensures forall e :: e in Tally(ws) ==> e.count == multiset(ws)[e.key]
    ensures forall w :: w in ws ==> Entry(w, multiset(ws)[w]) in Tally(ws)
  {
    var t := Tally(ws);
    forall e | e in t
      ensures e.count == multiset(ws)[e.key]
    {
      EntryCount(t, e);
    }
    forall w | w in ws
      ensures Entry(w, multiset(ws)[w]) in t
    {
      CountedKeyHasEntry(t, w);
    }
  }

  /* ---------------- Object.entries order ---------------- */

  /** The largest array index, 2^32 - 2. */
  const MaxArrayIndex: nat := 4294967294

  /** An array-index key: the canonical decimal form of an integer no larger
      than 2^32 - 2. Plain objects list these keys first, in ascending
      numeric order, before all other string keys. */
  predicate IsArrayIndex(k: string) {
    && |k| > 0
    && AllDigits(k)
    && (|k| == 1 || k[0] != '0')
    && DecimalValue(k) <= MaxArrayIndex
  }

  function IndexEntries(t: seq<Entry>): seq<Entry>
    decreases |t|
  {
    if |t| == 0 then []
    else (if IsArrayIndex(t[0].key) then [t[0]] else []) + IndexEntries(t[1..])
  }

  function NamedEntries(t: seq<Entry>): seq<Entry>
    decreases |t|
  {
    if |t| == 0 then []
    else (if IsArrayIndex(t[0].key) then [] else [t[0]]) + NamedEntries(t[1..])
  }

  lemma {:induction false} EntriesMembers(t: seq<Entry>)
    ensures forall e :: e in IndexEntries(t) ==> e in t && IsArrayIndex(e.key)
    ensures forall e :: e in NamedEntries(t) ==> e in t && !IsArrayIndex(e.key)
    decreases |t|
  {
    if |t| > 0 {
      EntriesMembers(t[1..]);
    }
  }

  lemma {:induction false} PartitionEntries(t: seq<Entry>)
    ensures multiset(IndexEntries(t)) + multiset(NamedEntries(t)) == multiset(t)
    decreases |t|
  {
    if |t| > 0 {
      PartitionEntries(t[1..]);
      assert t == [t[0]] + t[1..];
      if IsArrayIndex(t[0].key) {
        assert IndexEntries(t) == [t[0]] + IndexEntries(t[1..]);
        assert NamedEntries(t) == NamedEntries(t[1..]);
      } else {
        assert IndexEntries(t) == IndexEntries(t[1..]);
        assert NamedEntries(t) == [t[0]] + NamedEntries(t[1..]);
      }
    }
  }

  lemma EntriesAppend(a: seq<Entry>, b: seq<Entry>)
    ensures IndexEntries(a + b) == IndexEntries(a) + IndexEntries(b)
    ensures NamedEntries(a + b) == NamedEntries(a) + NamedEntries(b)
  {
    IndexEntriesAppend(a, b);
    NamedEntriesAppend(a, b);
  }

  lemma {:induction false} IndexEntriesAppend(a: seq<Entry>, b: seq<Entry>)
    ensures IndexEntries(a + b) == IndexEntries(a) + IndexEntries(b)
    decreases |a|
  {
    if |a| == 0 {
      assert a + b == b;
    } else {
      var ab := a + b;
      assert ab[0] == a[0] && ab[1..] == a[1..] + b;
      IndexEntriesAppend(a[1..], b);
      var h := if IsArrayIndex(a[0].key) then [a[0]] else [];
      assert IndexEntries(ab) == h + IndexEntries(a[1..] + b);
      assert IndexEntries(a) == h + IndexEntries(a[1..]);
    }
  }

  lemma {:induction false} NamedEntriesAppend(a: seq<Entry>, b: seq<Entry>)
    ensures NamedEntries(a + b) == NamedEntries(a) + NamedEntries(b)
    decreases |a|
  {
    if |a| == 0 {
      assert a + b == b;
    } else {
      var ab := a + b;
      assert ab[0] == a[0] && ab[1..] == a[1..] + b;
      NamedEntriesAppend(a[1..], b);
      var h := if IsArrayIndex(a[0].key) then [] else [a[0]];
      assert NamedEntries(ab) == h + NamedEntries(a[1..] + b);
      assert NamedEntries(a) == h + NamedEntries(a[1..]);
    }
  }

  lemma {:induction false} OnlyIndexEntries(s: seq<Entry>)
    requires forall e :: e in s ==> IsArrayIndex(e.key)
    ensures IndexEntries(s) == s
    ensures NamedEntries(s) == []
    decreases |s|
  {
    if |s| > 0 {
      OnlyIndexEntries(s[1..]);
    }
  }

  lemma {:induction false} OnlyNamedEntries(s: seq<Entry>)
    requires forall e :: e in s ==> !IsArrayIndex(e.key)
    ensures IndexEntries(s) == []
    ensures NamedEntries(s) == s
    decreases |s|
  {
    if |s| > 0 {
      OnlyNamedEntries(s[1..]);
    }
  }

  predicate AscendingIndex(s: seq<Entry>) {
    forall i, j :: 0 <= i < j < |s| ==> DecimalValue(s[i].key) <= DecimalValue(s[j].key)
  }

  lemma ConsAscending(x: Entry, s: seq<Entry>)
    requires AscendingIndex(s)
    requires forall y :: y in s ==> DecimalValue(x.key) <= DecimalValue(y.key)
    ensures AscendingIndex([x] + s)
  {
    var r := [x] + s;
    forall i, j | 0 <= i < j < |r|
      ensures DecimalValue(r[i].key) <= DecimalValue(r[j].key)
    {
      assert r[j] == s[j - 1];
      if i > 0 {
        assert r[i] == s[i - 1];
      }
    }
  }

  /** Places `e` after every entry whose numeric key is no larger than its own. */
  function InsertAscending(s: seq<Entry>, e: Entry): seq<Entry>
    decreases |s|
  {
    if |s| == 0 then [e]
    else if DecimalValue(s[0].key) <= DecimalValue(e.key) then [s[0]] + InsertAscending(s[1..], e)
    else [e] + s
  }

  function SortAscending(s: seq<Entry>): seq<Entry>
    decreases |s|
  {
    if |s| == 0 then [] else InsertAscending(SortAscending(s[1..]), s[0])
  }

  lemma {:induction false} InsertAscendingPermutes(s: seq<Entry>, e: Entry)
    ensures multiset(InsertAscending(s, e)) == multiset(s) + multiset{e}
    decreases |s|
  {
    if |s| > 0 && DecimalValue(s[0].key) <= DecimalValue(e.key) {
      InsertAscendingPermutes(s[1..], e);
      assert s == [s[0]] + s[1..];
    }
  }

  lemma {:induction false} InsertAscendingSorted(s: seq<Entry>, e: Entry)
    requires AscendingIndex(s)
    ensures AscendingIndex(InsertAscending(s, e))
    decreases |s|
  {
    if |s| == 0 {
    } else if DecimalValue(s[0].key) <= DecimalValue(e.key) {
      var rest := InsertAscending(s[1..], e);
      InsertAscendingSorted(s[1..], e);
      InsertAscendingPermutes(s[1..], e);
      forall y | y in rest
        ensures DecimalValue(s[0].key) <= DecimalValue(y.key)
      {
        assert y in multiset(rest);
        if y != e {
          assert y in multiset(s[1..]);
        }
      }
      ConsAscending(s[0], rest);
    } else {
      ConsAscending(e, s);
    }
  }

  /** Insertion sort by numeric key: a sorted permutation. */
  lemma SortAscendingSpec(s: seq<Entry>)
    ensures AscendingIndex(SortAscending(s))
    ensures multiset(SortAscending(s)) == multiset(s)
  {
    SortAscendingSorted(s);
    SortAscendingPermutes(s);
  }

  lemma {:induction false} SortAscendingSorted(s: seq<Entry>)
    ensures AscendingIndex(SortAscending(s))
    decreases |s|
  {
    if |s| > 0 {
      SortAscendingSorted(s[1..]);
      InsertAscendingSorted(SortAscending(s[1..]), s[0]);
    }
  }

  lemma {:induction false} SortAscendingPermutes(s: seq<Entry>)
    ensures multiset(SortAscending(s)) == multiset(s)
    decreases |s|
  {
    if |s| > 0 {
      var rest := SortAscending(s[1..]);
      assert SortAscending(s) == InsertAscending(rest, s[0]);
      SortAscendingPermutes(s[1..]);
      InsertAscendingPermutes(rest, s[0]);
      assert multiset(s) == multiset{s[0]} + multiset(s[1..]) by {
        assert s == [s[0]] + s[1..];
      }
    }
  }

  /** `Object.entries(counts)`: array-index keys first in ascending numeric
      order, then the other keys in insertion order. */
  function ObjectEntries(t: seq<Entry>): seq<Entry> {
    SortAscending(IndexEntries(t)) + NamedEntries(t)
  }

  /** The listing is a permutation of the table that puts every array-index
      key before every other key, the array-index keys in ascending numeric
      order and the other keys in their insertion order. */
  lemma EntriesOrder(t: seq<Entry>)
    ensures multiset(ObjectEntries(t)) == multiset(t)
    ensures forall i, j :: 0 <= i < j < |ObjectEntries(t)| && IsArrayIndex(ObjectEntries(t)[j].key) ==> IsArrayIndex(ObjectEntries(t)[i].key)
    ensures AscendingIndex(IndexEntries(ObjectEntries(t)))
    ensures NamedEntries(ObjectEntries(t)) == NamedEntries(t)
  {
    var idx := SortAscending(IndexEntries(t));
    var named := NamedEntries(t);
    SortAscendingSpec(IndexEntries(t));
    PartitionEntries(t);
    SortedIndexKeys(t);
    EntriesMembers(t);
    EntriesSplit(idx, named);
  }

  /** The sorted array-index entries all have array-index keys. */
  lemma SortedIndexKeys(t: seq<Entry>)
    ensures forall e :: e in SortAscending(IndexEntries(t)) ==> IsArrayIndex(e.key)
  {
    SortAscendingPermutes(IndexEntries(t));
    EntriesMembers(t);
    forall e | e in SortAscending(IndexEntries(t))
      ensures IsArrayIndex(e.key)
    {
      assert e in multiset(IndexEntries(t));
    }
  }

  /** Array-index entries followed by other entries: the index entries come
      first, and each part is recovered by its filter. */
  lemma EntriesSplit(idx: seq<Entry>, named: seq<Entry>)
    requires forall e :: e in idx ==> IsArrayIndex(e.key)
    requires forall e :: e in named ==> !IsArrayIndex(e.key)
    ensures IndexEntries(idx + named) == idx && NamedEntries(idx + named) == named
    ensures forall i, j :: 0 <= i < j < |idx + named| && IsArrayIndex((idx + named)[j].key) ==> IsArrayIndex((idx + named)[i].key)
  {
    var r := idx + named;
    EntriesAppend(idx, named);
    OnlyIndexEntries(idx);
    OnlyNamedEntries(named);
    forall i, j | 0 <= i < j < |r| && IsArrayIndex(r[j].key)
      ensures IsArrayIndex(r[i].key)
    {
      if i < |idx| {
        assert r[i] == idx[i];
      }
    }
  }

  /** A table none of whose keys is an array index is listed in insertion order. */
  lemma NamedTableOrder(t: seq<Entry>)
    requires forall e :: e in t ==> !IsArrayIndex(e.key)
    ensures ObjectEntries(t) == t
  {
    OnlyNamedEntries(t);
    assert SortAscending([]) == [];
  }

  /* ---------------- stable sort by descending count ---------------- */

  predicate Descending(s: seq<Entry>) {
    forall i, j :: 0 <= i < j < |s| ==> s[i].count >= s[j].count
  }

  lemma ConsDescending(x: Entry, s: seq<Entry>)
    requires Descending(s)
    requires forall y :: y in s ==> x.count >= y.count
    ensures Descending([x] + s)
  {
    var r := [x] + s;
    forall i, j | 0 <= i < j < |r|
      ensures r[i].count >= r[j].count
    {
      assert r[j] == s[j - 1];
      if i > 0 {
        assert r[i] == s[i - 1];
      }
    }
  }

  /** The entries of `s` whose count is `f`, in order. */
  function WithCount(s: seq<Entry>, f: nat): seq<Entry>
    decreases |s|
  {
    if |s| == 0 then []
    else (if s[0].count == f then [s[0]] else []) + WithCount(s[1..], f)
  }

  /** Places `e` in front of every entry with a count no larger than its own. */
  function InsertDescending(s: seq<Entry>, e: Entry): seq<Entry>
    decreases |s|
  {
    if |s| == 0 then [e]
    else if s[0].count > e.count then [s[0]] + InsertDescending(s[1..], e)
    else [e] + s
  }

  /** `entries.sort((a, b) => b[1] - a[1])`: V8's sort is stable. */
  function SortDescending(s: seq<Entry>): seq<Entry>
    decreases |s|
  {
    if |s| == 0 then [] else InsertDescending(SortDescending(s[1..]), s[0])
  }

  lemma {:induction false} InsertDescendingPermutes(s: seq<Entry>, e: Entry)
    ensures multiset(InsertDescending(s, e)) == multiset(s) + multiset{e}
    decreases |s|
  {
    if |s| > 0 && s[0].count > e.count {
      InsertDescendingPermutes(s[1..], e);
      assert s == [s[0]] + s[1..];
    }
  }

  lemma {:induction false} InsertDescendingSorted(s: seq<Entry>, e: Entry)
    requires Descending(s)
    ensures Descending(InsertDescending(s, e))
    decreases |s|
  {
    if |s| == 0 {
    } else if s[0].count > e.count {
      var rest := InsertDescending(s[1..], e);
      InsertDescendingSorted(s[1..], e);
      InsertDescendingPermutes(s[1..], e);
      forall y | y in rest
        ensures s[0].count >= y.count
      {
        assert y in multiset(rest);
        if y != e {
          assert y in multiset(s[1..]);
        }
      }
      ConsDescending(s[0], rest);
    } else {
      ConsDescending(e, s);
    }
  }

  /** The sort yields a permutation of its input ordered by non-increasing count. */
  lemma SortDescendingSpec(s: seq<Entry>)
    ensures Descending(SortDescending(s))
    ensures multiset(SortDescending(s)) == multiset(s)
  {
    SortDescendingSorted(s);
    SortDescendingPermutes(s);
  }

  lemma {:induction false} SortDescendingSorted(s: seq<Entry>)
    ensures Descending(SortDescending(s))
    decreases |s|
  {
    if |s| > 0 {
      SortDescendingSorted(s[1..]);
      InsertDescendingSorted(SortDescending(s[1..]), s[0]);
    }
  }

  lemma {:induction false} SortDescendingPermutes(s: seq<Entry>)
    ensures multiset(SortDescending(s)) == multiset(s)
    decreases |s|
  {
    if |s| > 0 {
      var rest := SortDescending(s[1..]);
      assert SortDescending(s) == InsertDescending(rest, s[0]);
      SortDescendingPermutes(s[1..]);
      InsertDescendingPermutes(rest, s[0]);
      assert multiset(s) == multiset{s[0]} + multiset(s[1..]) by {
        assert s == [s[0]] + s[1..];
      }
    }
  }

  lemma {:induction false} InsertDescendingStable(s: seq<Entry>, e: Entry, f: nat)
    requires Descending(s)
    ensures WithCount(InsertDescending(s, e), f) == (if e.count == f then [e] else []) + WithCount(s, f)
    decreases |s|
  {
    if |s| > 0 && s[0].count > e.count {
      InsertDescendingStable(s[1..], e, f);
      InsertBehind(s, e, f);
    } else if |s| > 0 {
      assert InsertDescending(s, e) == [e] + s;
      assert ([e] + s)[1..] == s;
    }
  }

  /** The step of `InsertDescendingStable` where `e` goes behind the head. */
  lemma InsertBehind(s: seq<Entry>, e: Entry, f: nat)
    requires |s| > 0 && s[0].count > e.count
    requires WithCount(InsertDescending(s[1..], e), f) == (if e.count == f then [e] else []) + WithCount(s[1..], f)
    ensures WithCount(InsertDescending(s, e), f) == (if e.count == f then [e] else []) + WithCount(s, f)
  {
    var rest := InsertDescending(s[1..], e);
    assert InsertDescending(s, e) == [s[0]] + rest;
    WithCountCons(s[0], rest, f);
    WithCountCons(s[0], s[1..], f);
    assert s == [s[0]] + s[1..];
  }

  lemma WithCountCons(x: Entry, t: seq<Entry>, f: nat)
    ensures WithCount([x] + t, f) == (if x.count == f then [x] else []) + WithCount(t, f)
  {
    assert ([x] + t)[1..] == t;
  }

  /** Stability: for every count, the entries with that count keep their
      relative order. */
  lemma {:induction false} SortDescendingStable(s: seq<Entry>, f: nat)
    ensures WithCount(SortDescending(s), f) == WithCount(s, f)
    decreases |s|
  {
    if |s| > 0 {
      SortDescendingStable(s[1..], f);
      SortDescendingSpec(s[1..]);
      InsertDescendingStable(SortDescending(s[1..]), s[0], f);
    }
  }

  /* ---------------- top five ---------------- */

  /** `Object.entries(counts).sort(...).slice(0, 5)`. */
  function Top5(t: seq<Entry>): seq<Entry> {
    Take(SortDescending(ObjectEntries(t)), 5)
  }

  /** The first five of a list sorted by non-increasing count are at least as
      frequent as anything after them. */
  lemma PrefixDominates(s: seq<Entry>)
    requires Descending(s)
    ensures Descending(Take(s, 5))
    ensures forall j :: 0 <= j < |s| && j >= 5 ==> s[j].count <= s[4].count
  {
    var r := Take(s, 5);
    forall i, j | 0 <= i < j < |r|
      ensures r[i].count >= r[j].count
    {
      assert r[i] == s[i] && r[j] == s[j];
    }
  }

  /** The top five are the most frequent entries, listed by non-increasing
      count: any entry left out has a count no larger than the fifth. */
  lemma {:induction false} TopSelection(t: seq<Entry>)
    ensures |Top5(t)| == Min(5, |t|)
    ensures Descending(Top5(t))
    ensures forall e :: e in Top5(t) ==> e in t
    ensures forall e :: e in t && e !in Top5(t) ==> |Top5(t)| == 5 && e.count <= Top5(t)[4].count
  {
    EntriesOrder(t);
    var sorted := SortDescending(ObjectEntries(t));
    SortDescendingSpec(ObjectEntries(t));
    PrefixDominates(sorted);
    var r := Top5(t);
    assert r == Take(sorted, 5);
    assert multiset(sorted) == multiset(t);
    assert |sorted| == |t| by {
      assert |multiset(sorted)| == |multiset(t)|;
    }
    forall e | e in r
      ensures e in t
    {
      assert e in multiset(sorted);
    }
    forall e | e in t && e !in r
      ensures |r| == 5 && e.count <= r[4].count
    {
      assert e in multiset(sorted);
      var j :| 0 <= j < |sorted| && sorted[j] == e;
      assert j >= |r|;
      assert |r| == 5;
      assert sorted[4] == r[4];
    }
  }

  /* ---------------- phrases ---------------- */

  /** The loop over adjacent token pairs: `a + " " + b` for every pair whose
      members are both outside the stop-word set. */
  function Phrases(ws: seq<string>): seq<string>
    decreases |ws|
  {
    if |ws| < 2 then []
    else
      (if ws[0] !in Stopwords && ws[1] !in Stopwords then [ws[0] + " " + ws[1]] else [])
      + Phrases(ws[1..])
  }

  /** The tokens never contain a stop word, so the pair guard never fails:
      there is one phrase per adjacent pair. */
  lemma {:induction false} PhrasesOfKeywords(ws: seq<string>)
    requires forall j :: 0 <= j < |ws| ==> IsKeyword(ws[j])
    ensures |Phrases(ws)| == if |ws| == 0 then 0 else |ws| - 1
    ensures forall i :: 0 <= i < |ws| - 1 ==> Phrases(ws)[i] == ws[i] + " " + ws[i + 1]
    decreases |ws|
  {
    if |ws| >= 2 {
      var tail := ws[1..];
      assert forall j :: 0 <= j < |tail| ==> IsKeyword(tail[j]) by {
        forall j | 0 <= j < |tail| ensures IsKeyword(tail[j]) {
          assert tail[j] == ws[j + 1];
        }
      }
      PhrasesOfKeywords(tail);
      assert IsKeyword(ws[0]) && IsKeyword(ws[1]);
      var p := Phrases(ws);
      assert p == [ws[0] + " " + ws[1]] + Phrases(tail);
      forall i | 0 <= i < |ws| - 1
        ensures p[i] == ws[i] + " " + ws[i + 1]
      {
        if i > 0 {
          assert p[i] == Phrases(tail)[i - 1];
          assert tail[i - 1] == ws[i] && tail[i] == ws[i + 1];
        }
      }
    }
  }

  /** Every phrase holds a blank. */
  lemma {:induction false} PhrasesHaveBlank(ws: seq<string>)
    ensures forall p :: p in Phrases(ws) ==> ' ' in p
    decreases |ws|
  {
    if |ws| >= 2 {
      PhrasesHaveBlank(ws[1..]);
      var p := ws[0] + " " + ws[1];
      assert p[|ws[0]|] == ' ';
    }
  }

  /** A key with a blank is never an array index. */
  lemma BlankNotIndex(k: string)
    requires ' ' in k
    ensures !IsArrayIndex(k)
  {
    if IsArrayIndex(k) {
      var i :| 0 <= i < |k| && k[i] == ' ';
      DigitsAt(k, i);
    }
  }

  lemma {:induction false} DigitsAt(k: string, i: int)
    requires AllDigits(k)
    requires 0 <= i < |k|
    ensures IsDigit(k[i])
    decreases |k|
  {
    if i > 0 {
      DigitsAt(k[1..], i - 1);
    }
  }

  /** The keys of a tally are the distinct tokens. */
  lemma {:induction false} TallyKeys(ws: seq<string>)
    ensures forall e :: e in Tally(ws) ==> e.key in ws
  {
    TallyEntries(ws);
  }

  /** The phrase table lists its phrases in first-seen order. */
  lemma PhraseTableOrder(ws: seq<string>)
    ensures ObjectEntries(Tally(Phrases(ws))) == Tally(Phrases(ws))
  {
    var ps := Phrases(ws);
    PhrasesHaveBlank(ws);
    TallyKeys(ps);
    forall e | e in Tally(ps)
      ensures !IsArrayIndex(e.key)
    {
      BlankNotIndex(e.key);
    }
    NamedTableOrder(Tally(ps));
  }

  /* ---------------- the consistency table ---------------- */

  /** One row of the keyword or phrase table. */
  datatype Row = Row(term: string, inTitle: bool, inMeta: bool, inHeadings: bool, frequency: nat)

  /** The text the table is built from, as extracted from the document
      once its `script`, `style`, `noscript`, `svg`, `iframe`, `meta` and
      `link` elements are gone: the body's visible text, every `<title>`'s
      text, and the text of each `h1`–`h6` in document order. */
  datatype KeywordSource = KeywordSource(
    visibleText: string,
    title: string,
    headings: seq<string>)

  datatype KeywordConsistency = KeywordConsistency(keywords: seq<Row>, phrases: seq<Row>)

  /** The three lower-cased strings every term is looked up in. */
  datatype Haystacks = Haystacks(title: string, meta: string, headings: string)

  /** The meta description is looked up only after every `meta` element
      has been removed, so its haystack is always empty. */
  function HaystacksOf(src: KeywordSource): Haystacks {
    Haystacks(Lower(src.title), "", Lower(Join(src.headings, " ")))
  }

  function RowOf(h: Haystacks, e: Entry): Row {
    Row(e.key, Contains(h.title, e.key), Contains(h.meta, e.key), Contains(h.headings, e.key), e.count)
  }

  function Rows(h: Haystacks, es: seq<Entry>): (r: seq<Row>)
    ensures |r| == |es|
    ensures forall i :: 0 <= i < |es| ==> r[i] == RowOf(h, es[i])
  {
    seq(|es|, i requires 0 <= i < |es| => RowOf(h, es[i]))
  }

  /** `checkKeywordConsistency`. */
  function CheckKeywordConsistency(src: KeywordSource): KeywordConsistency {
    var words := Tokens(src.visibleText);
    var h := HaystacksOf(src);
    KeywordConsistency(Rows(h, Top5(Tally(words))), Rows(h, Top5(Tally(Phrases(words)))))
  }

  /** The rows of a top-five table: at most five, each term a counted item
      with its exact number of occurrences, listed by non-increasing
      frequency, every item left out no more frequent than the fifth row,
      and each flag true exactly when the term occurs in the lower-cased text. */
  predicate IsTopTable(rows: seq<Row>, items: seq<string>, h: Haystacks) {
    && |rows| <= 5
    && (forall i :: 0 <= i < |rows| ==> rows[i].term in items && rows[i].frequency == multiset(items)[rows[i].term])
    && (forall i, j :: 0 <= i < j < |rows| ==> rows[i].term != rows[j].term && rows[i].frequency >= rows[j].frequency)
    && (forall w :: w in items && (forall i :: 0 <= i < |rows| ==> rows[i].term != w) ==>
          |rows| == 5 && multiset(items)[w] <= rows[4].frequency)
    && (forall i :: 0 <= i < |rows| ==>
          && (rows[i].inTitle <==> Contains(h.title, rows[i].term))
          && (rows[i].inMeta <==> Contains(h.meta, rows[i].term))
          && (rows[i].inHeadings <==> Contains(h.headings, rows[i].term)))
  }

  /** With distinct keys no entry appears twice. */
  lemma {:induction false} DistinctKeysOnce(t: seq<Entry>)
    requires Distinct(Keys(t))
    ensures forall e :: multiset(t)[e] <= 1
    decreases |t|
  {
    if |t| > 0 {
      var tail := t[1..];
      assert Keys(tail) == Keys(t)[1..];
      DistinctKeysOnce(tail);
      assert t == [t[0]] + tail;
    }
  }

  /** A sequence in which nothing occurs twice has different elements at different positions. */
  lemma OnceDistinct(s: seq<Entry>, i: int, j: int)
    requires forall e :: multiset(s)[e] <= 1
    requires 0 <= i < j < |s|
    ensures s[i] != s[j]
  {
    assert s == s[..j] + s[j..];
    assert s[i] in s[..j] && s[j] in s[j..];
    assert multiset(s)[s[j]] == multiset(s[..j])[s[j]] + multiset(s[j..])[s[j]];
  }

  /** With distinct keys, two entries with the same key are the same entry. */
  lemma SameKeySameEntry(t: seq<Entry>, a: Entry, b: Entry)
    requires Distinct(Keys(t))
    requires a in t && b in t && a.key == b.key
    ensures a == b
  {
    var p :| 0 <= p < |t| && t[p] == a;
    var q :| 0 <= q < |t| && t[q] == b;
    assert Keys(t)[p] == Keys(t)[q];
  }

  /** The top five of a table with distinct keys have distinct keys. */
  lemma TopDistinct(t: seq<Entry>)
    requires Distinct(Keys(t))
    ensures forall i, j :: 0 <= i < j < |Top5(t)| ==> Top5(t)[i].key != Top5(t)[j].key
  {
    var sorted := SortDescending(ObjectEntries(t));
    EntriesOrder(t);
    SortDescendingSpec(ObjectEntries(t));
    DistinctKeysOnce(t);
    var r := Top5(t);
    assert r == Take(sorted, 5);
    forall i, j | 0 <= i < j < |r|
      ensures r[i].key != r[j].key
    {
      assert r[i] == sorted[i] && r[j] == sorted[j];
      OnceDistinct(sorted, i, j);
      assert sorted[i] in multiset(t) && sorted[j] in multiset(t);
      if r[i].key == r[j].key {
        SameKeySameEntry(t, r[i], r[j]);
      }
    }
  }

  /** Every top row names a counted item and carries its number of occurrences. */
  lemma TopRowsCounted(items: seq<string>, h: Haystacks)
    ensures forall i :: 0 <= i < |Rows(h, Top5(Tally(items)))| ==>
      Rows(h, Top5(Tally(items)))[i].term in items
      && Rows(h, Top5(Tally(items)))[i].frequency == multiset(items)[Rows(h, Top5(Tally(items)))[i].term]
  {
    var top := Top5(Tally(items));
    TallyEntries(items);
    TallyKeys(items);
    TopSelection(Tally(items));
    forall i | 0 <= i < |top|
      ensures top[i].key in items && top[i].count == multiset(items)[top[i].key]
    {
      assert top[i] in top;
    }
  }

  /** The top rows have distinct terms, by non-increasing frequency. */
  lemma TopRowsOrdered(items: seq<string>, h: Haystacks)
    ensures forall i, j :: 0 <= i < j < |Rows(h, Top5(Tally(items)))| ==>
      Rows(h, Top5(Tally(items)))[i].term != Rows(h, Top5(Tally(items)))[j].term
      && Rows(h, Top5(Tally(items)))[i].frequency >= Rows(h, Top5(Tally(items)))[j].frequency
  {
    TopSelection(Tally(items));
    TopDistinct(Tally(items));
  }

  /** An item without a row is no more frequent than the fifth row. */
  lemma TopRowsMaximal(items: seq<string>, h: Haystacks)
    ensures forall w :: w in items && (forall i :: 0 <= i < |Rows(h, Top5(Tally(items)))| ==> Rows(h, Top5(Tally(items)))[i].term != w) ==>
      |Rows(h, Top5(Tally(items)))| == 5 && multiset(items)[w] <= Rows(h, Top5(Tally(items)))[4].frequency
  {
    var t := Tally(items);
    var top := Top5(t);
    var rows := Rows(h, top);
    TallyEntries(items);
    TopSelection(t);
    forall w | w in items && (forall i :: 0 <= i < |rows| ==> rows[i].term != w)
      ensures |rows| == 5 && multiset(items)[w] <= rows[4].frequency
    {
      var e := Entry(w, multiset(items)[w]);
      assert e in t;
      assert e !in top by {
        forall i | 0 <= i < |top| ensures top[i] != e {
          assert rows[i].term == top[i].key;
        }
      }
    }
  }

  /** The top-five rows built from the tally of `items` form the top table of `items`. */
  lemma TopTableOf(items: seq<string>, h: Haystacks)
    ensures IsTopTable(Rows(h, Top5(Tally(items))), items, h)
  {
    TopSelection(Tally(items));
    TopRowsCounted(items, h);
    TopRowsOrdered(items, h);
    TopRowsMaximal(items, h);
  }

  /** The keyword table lists the most frequent tokens with their exact
      counts; the phrase table does the same for adjacent token pairs. */
  lemma ConsistencyTables(src: KeywordSource)
    ensures IsTopTable(CheckKeywordConsistency(src).keywords, Tokens(src.visibleText), HaystacksOf(src))
    ensures IsTopTable(CheckKeywordConsistency(src).phrases, Phrases(Tokens(src.visibleText)), HaystacksOf(src))
  {
    var words := Tokens(src.visibleText);
    TopTableOf(words, HaystacksOf(src));
    TopTableOf(Phrases(words), HaystacksOf(src));
  }

  /** No term of either table is ever reported in the meta description:
      every term is non-empty and the meta haystack is empty. */
  lemma NeverInMeta(src: KeywordSource)
    ensures forall i :: 0 <= i < |CheckKeywordConsistency(src).keywords| ==> !CheckKeywordConsistency(src).keywords[i].inMeta
    ensures forall i :: 0 <= i < |CheckKeywordConsistency(src).phrases| ==> !CheckKeywordConsistency(src).phrases[i].inMeta
  {
    var words := Tokens(src.visibleText);
    ConsistencyTables(src);
    PhrasesNonEmpty(words);
    EmptyMetaNoFlag(CheckKeywordConsistency(src).keywords, words, HaystacksOf(src));
    EmptyMetaNoFlag(CheckKeywordConsistency(src).phrases, Phrases(words), HaystacksOf(src));
  }

  lemma EmptyMetaNoFlag(rows: seq<Row>, items: seq<string>, h: Haystacks)
    requires IsTopTable(rows, items, h)
    requires h.meta == "" && forall j :: 0 <= j < |items| ==> |items[j]| > 0
    ensures forall i :: 0 <= i < |rows| ==> !rows[i].inMeta
  {
    forall i | 0 <= i < |rows| ensures !rows[i].inMeta {
      assert rows[i].term in items;
    }
  }

  lemma {:induction false} PhrasesNonEmpty(ws: seq<string>)
    ensures forall j :: 0 <= j < |Phrases(ws)| ==> |Phrases(ws)[j]| > 0
    decreases |ws|
  {
    if |ws| >= 2 {
      PhrasesNonEmpty(ws[1..]);
    }
  }
}
