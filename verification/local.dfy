/** The local-SEO analyzer: a LocalBusiness type in the JSON-LD, a phone
    number and an address word in the body text, a Google Business link or
    mention, and a review count. Each rule is a regular-expression test in
    the analyzer; here each is an explicit matcher over characters. */
module Local {
  import opened Common
  import opened Text

  /** What the analyzer reads from the page. */
  datatype LocalInput = LocalInput(
    ldJson: seq<string>,      // inner text of every JSON-LD script, in document order
    bodyText: string,         // text content of <body>
    anchorHrefs: seq<string>) // `href` of every <a> carrying one

  /** `reviews.count`: a number, the "stars" mark, or null. */
  datatype ReviewCount = NoCount | Count(n: nat) | Stars

  datatype LocalReport = LocalReport(
    phone: bool,
    address: bool,
    localBusiness: bool,
    googleBusiness: bool,
    reviews: ReviewCount)

  predicate NotDigit(c: char) {
    !IsDigit(c)
  }

  /* ---------------- words separated by optional white space ---------------- */

  /** The literals `ws` occur in order from `i`, each separated from the next
      by the white space that follows it (a `\s*` between literals). Taking
      the whole run of white space is what a backtracking matcher does
      when the next literal starts with a non-space character. */
  predicate SpacedAt(s: string, i: nat, ws: seq<string>)
    decreases |ws|
  {
    |ws| == 0 ||
    (OccursAt(s, ws[0], i) && SpacedAt(s, RunEnd(s, i + |ws[0]|, NotSpace), ws[1..]))
  }

  /** The same with any amount of white space between the literals, as the
      regular expression reads it. */
  ghost predicate SpacedSpec(s: string, i: nat, ws: seq<string>)
    decreases |ws|, 0
  {
    |ws| == 0 || (OccursAt(s, ws[0], i) && GapThen(s, i + |ws[0]|, ws[1..]))
  }

  /** White space from `a` on, then the literals `ws`. */
  ghost predicate GapThen(s: string, a: int, ws: seq<string>)
    decreases |ws|, 1
  {
    exists j: nat :: Gap(s, a, j) && SpacedSpec(s, j, ws)
  }

  /** Only white space from `a` up to `j`. */
  predicate Gap(s: string, a: int, j: int) {
    0 <= a <= j <= |s| && forall m :: a <= m < j ==> IsSpace(s[m])
  }

  /** The literals `ws` occur somewhere in `s`, in the greedy reading... */
  predicate Somewhere(s: string, ws: seq<string>) {
    exists i: nat :: i <= |s| && SpacedAt(s, i, ws)
  }

  /** ... and in the regular expression's. */
  ghost predicate SomewhereSpec(s: string, ws: seq<string>) {
    exists i: nat :: i <= |s| && SpacedSpec(s, i, ws)
  }

  /** Every literal after the first starts with a non-space character. */
  predicate Separable(ws: seq<string>) {
    forall k :: 1 <= k < |ws| ==> |ws[k]| > 0 && !IsSpace(ws[k][0])
  }

  /* ---------------- the five rules ---------------- */

  const TypeLocalBusiness: seq<string> := ["\"@type\"", ":", "\"localbusiness\""]

  /** `/"@type"\s*:\s*"LocalBusiness"/i` over the joined JSON-LD text. */
  predicate HasLocalBusiness(ld: string) {
    Somewhere(Lower(ld), TypeLocalBusiness)
  }

  /** `[0-9\s\-\(\)]`. */
  predicate PhoneChar(c: char) {
    IsDigit(c) || IsSpace(c) || c == '-' || c == '(' || c == ')'
  }

  /** `[0-9][0-9\s\-\(\)]{7,}` matches from `i`: a digit and seven more
      phone characters (the optional leading `+` never changes the verdict). */
  predicate PhoneAt(t: string, i: int) {
    0 <= i && i + 8 <= |t| && IsDigit(t[i]) && forall m :: i < m < i + 8 ==> PhoneChar(t[m])
  }

  predicate HasPhone(t: string) {
    exists i :: 0 <= i < |t| && PhoneAt(t, i)
  }

  const AddressWords: seq<string> :=
    ["street", "st.", "road", "rd.", "ave", "avenue", "city", "state", "province", "zip", "postal"]

  predicate HasAddress(t: string) {
    exists w :: w in AddressWords && ContainsCI(t, w)
  }

  const GoogleReviews: seq<string> := ["google", "reviews"]
  const ViewOnGoogle: seq<string> := ["view", "on", "google"]

  /** A maps link (a case-sensitive attribute substring selector) or a
      "google reviews" / "view on google" mention in any letter case. */
  predicate HasGoogleBusiness(t: string, hrefs: seq<string>) {
    var l := Lower(t);
    || (exists h :: h in hrefs && (Contains(h, "google.com/maps") || Contains(h, "goo.gl/maps")))
    || Somewhere(l, GoogleReviews)
    || Somewhere(l, ViewOnGoogle)
  }

  /** The digits a match of `(\d{1,4})\s*(customer\s*)?reviews?` starting at
      `i` captures, in the lower-cased text `l`: up to four digits, white
      space, an optional "customer" and white space, then "review". */
  function ReviewDigitsAt(l: string, i: nat): Option<string>
    requires i <= |l|
  {
    if i == |l| || !IsDigit(l[i]) then None
    else
      var e := Min(RunEnd(l, i, NotDigit), i + 4);
      var p := RunEnd(l, e, NotSpace);
      if SpacedAt(l, p, ["review"]) || SpacedAt(l, p, ["customer", "review"]) then Some(l[i..e]) else None
  }

  /** `text.match(...)`: the leftmost match at or after `i`. */
  function FirstReview(l: string, i: nat): Option<string>
    requires i <= |l|
  {
    FirstOf(j => if 0 <= j < |l| then ReviewDigitsAt(l, j) else None, i, |l|)
  }

  /** What `m` finds at the first position from `i` below `n` where it
      finds anything. */
  function FirstOf(m: int -> Option<string>, i: nat, n: nat): Option<string>
    decreases n - i
  {
    if i >= n then None
    else if m(i).Some? then m(i)
    else FirstOf(m, i + 1, n)
  }

  const Star: char := '\U{2605}'

  function Reviews(t: string): ReviewCount {
    match FirstReview(Lower(t), 0)
    case Some(digits) => Count(DecimalValue(digits))
    case None => if Contains(t, [Star, Star, Star]) then Stars else NoCount
  }

  /** `localSeo(base)`. */
  function Analyze(x: LocalInput): LocalReport {
    LocalReport(
      HasPhone(x.bodyText),
      HasAddress(x.bodyText),
      HasLocalBusiness(Join(x.ldJson, "\n")),
      HasGoogleBusiness(x.bodyText, x.anchorHrefs),
      Reviews(x.bodyText))
  }

  /* ---------------- a scanner for the phone rule ---------------- */

  /** A digit at `y` followed by phone characters up to `k`. */
  predicate RunFrom(t: string, y: int, k: int) {
    0 <= y < k <= |t| && IsDigit(t[y]) && forall m :: y < m < k ==> PhoneChar(t[m])
  }

  /** One left-to-right pass that remembers where the current run of phone
      characters first had a digit. */
  method ScanPhone(t: string) returns (found: bool)
    ensures found <==> HasPhone(t)
  {
    var k := 0;
    var start: Option<nat> := None;
    while k < |t|
      invariant 0 <= k <= |t|
      invariant forall i :: 0 <= i && i + 8 <= k ==> !PhoneAt(t, i)
      invariant start.None? ==> forall y :: !RunFrom(t, y, k)
      invariant start.Some? ==> RunFrom(t, start.value, k) && forall y :: RunFrom(t, y, k) ==> start.value <= y
    {
      var k1 := k + 1;
      forall y ensures RunFrom(t, y, k1) <==> (y == k && IsDigit(t[k])) || (RunFrom(t, y, k) && PhoneChar(t[k])) {
        RunFromStep(t, y, k);
      }
      if !PhoneChar(t[k]) {
        start := None;
        assert forall y :: !RunFrom(t, y, k1);
      } else if start.None? {
        if IsDigit(t[k]) {
          start := Some(k);
          assert RunFrom(t, k, k1);
        }
        assert start.None? ==> forall y :: !RunFrom(t, y, k1);
        assert start.Some? ==> forall y :: RunFrom(t, y, k1) ==> y == k;
      } else {
        assert RunFrom(t, start.value, k1);
        assert forall y :: RunFrom(t, y, k1) ==> start.value <= y;
      }
      k := k + 1;
      if start.Some? && k - start.value >= 8 {
        assert PhoneAt(t, start.value);
        return true;
      }
      forall i | 0 <= i && i + 8 == k ensures !PhoneAt(t, i) {
        if PhoneAt(t, i) {
          assert RunFrom(t, i, k);
        }
      }
    }
    return false;
  }

  lemma RunFromStep(t: string, y: int, k: int)
    requires 0 <= k < |t|
    ensures RunFrom(t, y, k + 1) <==> (y == k && IsDigit(t[k])) || (RunFrom(t, y, k) && PhoneChar(t[k]))
  {
  }

  /* ---------------- properties ---------------- */

  /** The greedy reading of the white space agrees with the regular
      expression's, because no literal after the first starts with white
      space. */
  lemma {:induction false} SpacedAgrees(s: string, i: nat, ws: seq<string>)
    requires Separable(ws)
    ensures SpacedAt(s, i, ws) <==> SpacedSpec(s, i, ws)
    decreases |ws|
  {
    if |ws| > 0 && OccursAt(s, ws[0], i) {
      var e := RunEnd(s, i + |ws[0]|, NotSpace);
      assert Separable(ws[1..]) by {
        forall k | 1 <= k < |ws[1..]| ensures |ws[1..][k]| > 0 && !IsSpace(ws[1..][k][0]) {
          assert ws[1..][k] == ws[k + 1];
        }
      }
      SpacedAgrees(s, e, ws[1..]);
      if SpacedSpec(s, i, ws) {
        assert GapThen(s, i + |ws[0]|, ws[1..]);
        var j: nat :| Gap(s, i + |ws[0]|, j) && SpacedSpec(s, j, ws[1..]);
        if |ws| > 1 {
          assert OccursAt(s, ws[1], j);
          assert s[j] == ws[1][0];
          assert !IsSpace(s[j]);
          assert j == e;
        } else {
          assert SpacedAt(s, i, ws);
        }
      }
      if SpacedAt(s, i, ws) {
        assert SpacedSpec(s, i, ws) by {
          assert Gap(s, i + |ws[0]|, e);
          assert GapThen(s, i + |ws[0]|, ws[1..]);
        }
      }
    }
  }

  /** The three literal sequences the analyzer looks for are separable, so
      their matchers mean what the regular expressions mean. */
  lemma PatternsSeparable()
    ensures Separable(TypeLocalBusiness) && Separable(GoogleReviews) && Separable(ViewOnGoogle)
    ensures Separable(["customer", "review"])
  {
  }

  /** Somewhere in `s`, in either reading. */
  lemma SpacedSomewhere(s: string, ws: seq<string>)
    requires Separable(ws)
    ensures Somewhere(s, ws) <==> SomewhereSpec(s, ws)
  {
    if exists i: nat :: i <= |s| && SpacedAt(s, i, ws) {
      var i: nat :| i <= |s| && SpacedAt(s, i, ws);
      SpacedAgrees(s, i, ws);
    }
    if exists i: nat :: i <= |s| && SpacedSpec(s, i, ws) {
      var i: nat :| i <= |s| && SpacedSpec(s, i, ws);
      SpacedAgrees(s, i, ws);
    }
  }

  /** `localBusinessSchema.present` reads the pattern as the regular
      expression does: any white space around the colon. */
  lemma LocalBusinessMeaning(ld: string)
    ensures HasLocalBusiness(ld) <==> SomewhereSpec(Lower(ld), TypeLocalBusiness)
  {
    PatternsSeparable();
    SpacedSomewhere(Lower(ld), TypeLocalBusiness);
  }

  /** The same for the "google reviews" and "view on google" mentions. */
  lemma GoogleMeaning(t: string, hrefs: seq<string>)
    ensures HasGoogleBusiness(t, hrefs) <==>
      || (exists h :: h in hrefs && (Contains(h, "google.com/maps") || Contains(h, "goo.gl/maps")))
      || SomewhereSpec(Lower(t), GoogleReviews)
      || SomewhereSpec(Lower(t), ViewOnGoogle)
  {
    var l := Lower(t);
    PatternsSeparable();
    SpacedSomewhere(l, GoogleReviews);
    SpacedSomewhere(l, ViewOnGoogle);
  }

  /** The phone rule needs one digit and seven more phone characters; it
      does not count digits. */
  lemma PhoneIsLoose()
    ensures HasPhone("1 - - - -")
    ensures !HasPhone("1234567")
  {
    assert PhoneAt("1 - - - -", 0);
  }

  /** The address rule is a substring test, so "have" contains "ave". */
  lemma AddressIsLoose()
    ensures HasAddress("we have it")
  {
    var l := Lower("we have it");
    assert OccursAt(l, "ave", 4);
    assert "ave" in AddressWords;
  }

  /** A found review count comes from the leftmost match and has one to
      four digits, so it lies in [0, 9999]. */
  lemma FirstReviewLeftmost(l: string, i: nat)
    requires i <= |l|
    ensures FirstReview(l, i).None? <==> forall j :: i <= j <= |l| ==> ReviewDigitsAt(l, j).None?
    ensures FirstReview(l, i).Some? ==>
      exists j :: (i <= j < |l| && FirstReview(l, i) == ReviewDigitsAt(l, j)
        && forall m :: i <= m < j ==> ReviewDigitsAt(l, m).None?)
  {
    var m := j => if 0 <= j < |l| then ReviewDigitsAt(l, j) else None;
    assert FirstReview(l, i) == FirstOf(m, i, |l|);
    FirstOfNone(m, i, |l|);
    FirstOfSome(m, i, |l|);
    assert forall j :: i <= j < |l| ==> m(j) == ReviewDigitsAt(l, j);
  }

  /** `FirstOf` finds nothing exactly when no position finds anything. */
  lemma {:induction false} FirstOfNone(m: int -> Option<string>, i: nat, n: nat)
    ensures FirstOf(m, i, n).None? <==> forall j :: i <= j < n ==> m(j).None?
    decreases n - i
  {
    if i < n {
      FirstOfNone(m, i + 1, n);
    }
  }

  /** What `FirstOf` finds is found at some position, and at no earlier one. */
  lemma {:induction false} FirstOfSome(m: int -> Option<string>, i: nat, n: nat)
    ensures FirstOf(m, i, n).Some? ==>
      exists j :: i <= j < n && FirstOf(m, i, n) == m(j) && forall k :: i <= k < j ==> m(k).None?
    decreases n - i
  {
    if i < n && FirstOf(m, i, n).Some? && m(i).None? {
      FirstOfSome(m, i + 1, n);
      var j :| i + 1 <= j < n && FirstOf(m, i + 1, n) == m(j) && forall k :: i + 1 <= k < j ==> m(k).None?;
      assert forall k :: i <= k < j ==> m(k).None?;
    }
  }

  lemma ReviewDigits(l: string, i: nat)
    requires i <= |l|
    ensures ReviewDigitsAt(l, i).Some? ==>
      && 1 <= |ReviewDigitsAt(l, i).value| <= 4
      && AllDigits(ReviewDigitsAt(l, i).value)
      && DecimalValue(ReviewDigitsAt(l, i).value) <= 9999
  {
    if ReviewDigitsAt(l, i).Some? {
      var d := ReviewDigitsAt(l, i).value;
      assert forall m :: 0 <= m < |d| ==> IsDigit(d[m]);
      DigitsAllDigits(d);
      DecimalBound(d);
    }
  }

  lemma {:induction false} DigitsAllDigits(d: string)
    requires forall m :: 0 <= m < |d| ==> IsDigit(d[m])
    ensures AllDigits(d)
    decreases |d|
  {
    if |d| > 0 {
      DigitsAllDigits(d[1..]);
    }
  }

  function Pow10(n: nat): nat {
    if n == 0 then 1 else 10 * Pow10(n - 1)
  }

  lemma {:induction false} DecimalBound(d: string)
    ensures DecimalValue(d) < Pow10(|d|)
    decreases |d|
  {
    if |d| > 0 {
      DecimalBound(d[..|d| - 1]);
    }
  }

  /** `reviews.count` is the leftmost match's number; failing a match it is
      the stars mark exactly when the text holds three stars in a row. */
  lemma ReviewRule(t: string)
    ensures Reviews(t).Count? <==> exists j :: 0 <= j < |t| && ReviewDigitsAt(Lower(t), j).Some?
    ensures Reviews(t).Count? ==> Reviews(t).n <= 9999
    ensures Reviews(t).Stars? <==>
      (forall j :: 0 <= j <= |t| ==> ReviewDigitsAt(Lower(t), j).None?) && Contains(t, [Star, Star, Star])
  {
    var l := Lower(t);
    FirstReviewLeftmost(l, 0);
    if FirstReview(l, 0).Some? {
      var j :| 0 <= j < |l| && FirstReview(l, 0) == ReviewDigitsAt(l, j);
      ReviewDigits(l, j);
    }
  }

  /** A count takes the last four digits of a longer number: in
      "12345 reviews" the leftmost match starts at the "2". */
  lemma ReviewOfLongNumber()
    ensures Reviews("12345 reviews") == Count(2345)
  {
    var l := "12345 reviews";
    LowerExample(l);
    FirstReviewExample(l);
    DecimalExample();
  }

  lemma LowerExample(l: string)
    requires l == "12345 reviews"
    ensures Lower(l) == l
  {
  }

  lemma FirstReviewExample(l: string)
    requires l == "12345 reviews"
    ensures FirstReview(l, 0) == Some("2345")
  {
    NoMatchAtFirstDigit(l);
    MatchAtSecondDigit(l);
    var m := j => if 0 <= j < |l| then ReviewDigitsAt(l, j) else None;
    assert FirstReview(l, 0) == FirstOf(m, 0, |l|);
    assert m(0).None? && m(1) == Some("2345");
  }

  lemma DecimalExample()
    ensures DecimalValue("2345") == 2345
  {
    assert "2345"[..3] == "234" && "234"[..2] == "23" && "23"[..1] == "2" && "2"[..0] == "";
  }

  /** The digits of the example run from 0 to 5. */
  lemma DigitRunExample(l: string)
    requires l == "12345 reviews"
    ensures forall i :: 0 <= i <= 5 ==> RunEnd(l, i, NotDigit) == 5
  {
    assert RunEnd(l, 5, NotDigit) == 5;
    assert RunEnd(l, 4, NotDigit) == 5;
    assert RunEnd(l, 3, NotDigit) == 5;
    assert RunEnd(l, 2, NotDigit) == 5;
    assert RunEnd(l, 1, NotDigit) == 5;
    assert RunEnd(l, 0, NotDigit) == 5;
  }

  lemma NoMatchAtFirstDigit(l: string)
    requires l == "12345 reviews"
    ensures ReviewDigitsAt(l, 0) == None
  {
    DigitRunExample(l);
    assert RunEnd(l, 4, NotSpace) == 4;
  }

  lemma MatchAtSecondDigit(l: string)
    requires l == "12345 reviews"
    ensures ReviewDigitsAt(l, 1) == Some("2345")
  {
    DigitRunExample(l);
    assert RunEnd(l, 5, NotSpace) == 6;
    assert OccursAt(l, "review", 6);
    assert l[1..5] == "2345";
  }
}
