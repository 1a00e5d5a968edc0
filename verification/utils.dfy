/** The two pure helpers of `zubbi/utils.py`: joining URL segments and
    finding the newest blame range that touches a block of lines. */
module Utils {
  import opened Wrappers
  import opened Text

  /** Every part with the slashes at both of its ends removed. */
  function Stripped(parts: seq<string>): (r: seq<string>)
    ensures |r| == |parts|
    ensures forall i :: 0 <= i < |parts| ==> r[i] == StripChar(parts[i], '/')
  {
    seq(|parts|, i requires 0 <= i < |parts| => StripChar(parts[i], '/'))
  }

  /** Stripped parts, each preceded by one `/`. */
  function Glue(segs: seq<string>): string
    decreases |segs|
  {
    if |segs| == 0 then "" else "/" + segs[0] + Glue(segs[1..])
  }

  /** `urljoin(base, *parts)`: trailing slashes go from the base, leading and
      trailing slashes from every part, and the pieces are glued with one `/`. */
  function Urljoin(base: string, parts: seq<string>): (r: string)
    ensures StartsWith(r, RStripChar(base, '/'))
    ensures |parts| == 0 ==> r == RStripChar(base, '/')
    ensures |parts| > 0 ==> |r| > |RStripChar(base, '/')| && r[|RStripChar(base, '/')|] == '/'
  {
    RStripChar(base, '/') + Glue(Stripped(parts))
  }

  /** Gluing two lists of segments is gluing them one after the other. */
  lemma {:induction false} GlueAppend(xs: seq<string>, ys: seq<string>)
    ensures Glue(xs + ys) == Glue(xs) + Glue(ys)
    decreases |xs|
  {
    if |xs| > 0 {
      var h := "/" + xs[0];
      var a := Glue(xs[1..]);
      var b := Glue(ys);
      GlueAppend(xs[1..], ys);
      assert (xs + ys)[1..] == xs[1..] + ys;
      assert (xs + ys)[0] == xs[0];
      assert Glue(xs + ys) == h + (a + b);
      assert h + (a + b) == (h + a) + b;
    } else {
      assert xs + ys == ys;
    }
  }

  /** One more part adds exactly one `/` and the stripped part. */
  lemma UrljoinAppend(base: string, parts: seq<string>, p: string)
    ensures Urljoin(base, parts + [p]) == Urljoin(base, parts) + "/" + StripChar(p, '/')
  {
    var s := StripChar(p, '/');
    assert Stripped(parts + [p]) == Stripped(parts) + [s];
    GlueAppend(Stripped(parts), [s]);
    assert Glue([s]) == "/" + s + Glue([]);
    var r := RStripChar(base, '/');
    var g := Glue(Stripped(parts));
    assert r + (g + ("/" + s)) == (r + g) + "/" + s;
  }

  /** Slashes at the end of the base never matter. */
  lemma UrljoinBaseSlash(base: string, parts: seq<string>)
    ensures Urljoin(base + "/", parts) == Urljoin(base, parts)
  {
    assert (base + "/")[..|base|] == base;
  }

  /** A join whose last part is not all slashes does not end in `/`. */
  lemma UrljoinEndsClean(base: string, ps: seq<string>)
    requires |ps| > 0 && StripChar(ps[|ps| - 1], '/') != ""
    ensures RStripChar(Urljoin(base, ps), '/') == Urljoin(base, ps)
  {
    var init := ps[..|ps| - 1];
    var last := ps[|ps| - 1];
    assert init + [last] == ps;
    UrljoinAppend(base, init, last);
    var u := Urljoin(base, ps);
    var s := StripChar(last, '/');
    assert u[|u| - 1] == s[|s| - 1];
    RStripCharNoop(u, '/');
  }

  /** Joining more parts extends the URL by their glued segments. */
  lemma UrljoinConcat(base: string, ps: seq<string>, qs: seq<string>)
    ensures Urljoin(base, ps + qs) == Urljoin(base, ps) + Glue(Stripped(qs))
  {
    assert Stripped(ps + qs) == Stripped(ps) + Stripped(qs);
    GlueAppend(Stripped(ps), Stripped(qs));
    var r := RStripChar(base, '/');
    assert r + (Glue(Stripped(ps)) + Glue(Stripped(qs))) == (r + Glue(Stripped(ps))) + Glue(Stripped(qs));
  }

  /** A URL built by `urljoin` whose last part is not all slashes can serve
      as the base of a further `urljoin`, and the result is the same as
      joining all parts at once. `url_for_directory` and the Gerrit
      `gitweb_url` rely on this. */
  lemma UrljoinNested(base: string, ps: seq<string>, qs: seq<string>)
    requires |ps| > 0 && StripChar(ps[|ps| - 1], '/') != ""
    ensures Urljoin(Urljoin(base, ps), qs) == Urljoin(base, ps + qs)
  {
    UrljoinEndsClean(base, ps);
    UrljoinConcat(base, ps, qs);
  }

  /** The example of the GitHub Enterprise API URL. */
  lemma UrljoinExample(base: string, part: string)
    requires base == "https://localhost/github" && part == "api/v3"
    ensures Urljoin(base, [part]) == "https://localhost/github/api/v3"
  {
    StripCharNoop(part, '/');
    assert RStripChar(base, '/') == base;
    UrljoinAppend(base, [], part);
    assert [] + [part] == [part];
  }

  /** One range of a blame: lines `start..end` inclusive, last changed at `date`. */
  datatype Blame = Blame(start: int, end: int, date: string)

  /** Line `l` lies in `range(lo, hi + 1)`. */
  predicate Covers(lo: int, hi: int, l: int) {
    lo <= l <= hi
  }

  /** The line sets `range(start, end + 1)` and `range(b.start, b.end + 1)`
      share a line: the set intersection `last_changed_from_blame_range`
      tests. */
  ghost predicate SharesLine(start: int, end: int, b: Blame) {
    exists l :: Covers(start, end, l) && Covers(b.start, b.end, l)
  }

  /** The same test as interval arithmetic. */
  predicate Intersects(start: int, end: int, b: Blame) {
    start <= end && b.start <= b.end && start <= b.end && b.start <= end
  }

  lemma IntersectsIffSharesLine(start: int, end: int, b: Blame)
    ensures Intersects(start, end, b) <==> SharesLine(start, end, b)
  {
    if Intersects(start, end, b) {
      var l := if start < b.start then b.start else start;
      assert Covers(start, end, l) && Covers(b.start, b.end, l);
    }
  }

  /** `last_changed_from_blame_range(start, end, blames)`. The function
      sorts the ranges newest first and returns the date of the first one that
      intersects the lines; that is the greatest intersecting date in
      Python's string order, which is how it is computed here. */
  function LastChangedFromBlameRange(start: int, end: int, blames: seq<Blame>): (r: Option<string>)
    ensures r.None? <==> forall b :: b in blames ==> !Intersects(start, end, b)
    ensures r.Some? ==> exists b :: b in blames && Intersects(start, end, b) && b.date == r.value
    ensures r.Some? ==> forall b :: b in blames && Intersects(start, end, b) ==> LexLe(b.date, r.value)
    decreases |blames|
  {
    if |blames| == 0 then None
    else
      var last := blames[|blames| - 1];
      var init := blames[..|blames| - 1];
      assert blames == init + [last];
      var rest := LastChangedFromBlameRange(start, end, init);
      LexLeTotal(last.date, last.date);
      if !Intersects(start, end, last) then rest
      else if rest.None? then Some(last.date)
      else if LexLe(last.date, rest.value) then rest
      else
        LexLeTotal(last.date, rest.value);
        assert forall b :: b in init && Intersects(start, end, b) ==> LexLe(b.date, last.date) by {
          forall b | b in init && Intersects(start, end, b) ensures LexLe(b.date, last.date) {
            LexLeTransitive(b.date, rest.value, last.date);
          }
        }
        Some(last.date)
  }

  /** A range that ends before it starts selects nothing. */
  lemma EmptyRangeHasNoDate(start: int, end: int, blames: seq<Blame>)
    requires start > end
    ensures LastChangedFromBlameRange(start, end, blames) == None
  {
  }

  /** The answer depends only on which ranges are present, not on their
      order or repetition. */
  lemma LastChangedOrderIrrelevant(start: int, end: int, blames: seq<Blame>, other: seq<Blame>)
    requires forall b :: b in blames <==> b in other
    ensures LastChangedFromBlameRange(start, end, blames) == LastChangedFromBlameRange(start, end, other)
  {
    var x := LastChangedFromBlameRange(start, end, blames);
    var y := LastChangedFromBlameRange(start, end, other);
    if x.Some? && y.Some? {
      LexLeAntisymmetric(x.value, y.value);
    }
  }

  /** The blame fixture with three ranges, two of them on the same date. */
  function SimpleFixture(): seq<Blame> {
    [Blame(1, 7, "2018-01-01T00:00:00"),
     Blame(8, 15, "2018-02-02T00:00:00"),
     Blame(16, 38, "2018-01-01T00:00:00")]
  }

  /** The blame fixture with seven adjacent ranges. */
  function ComplexFixture(): seq<Blame> {
    [Blame(1, 5, "2018-01-01T00:00:00"),
     Blame(6, 6, "2018-02-02T00:00:00"),
     Blame(7, 7, "2018-03-03T00:00:00"),
     Blame(8, 9, "2018-08-08T00:00:00"),
     Blame(10, 20, "2018-05-05T00:00:00"),
     Blame(21, 22, "2018-06-06T00:00:00"),
     Blame(23, 30, "2018-01-01T00:00:00")]
  }

  /** The contract pins the answer down: a date of an intersecting range
      that no intersecting date exceeds is the answer. */
  lemma LastChangedUnique(start: int, end: int, blames: seq<Blame>, i: int)
    requires 0 <= i < |blames| && Intersects(start, end, blames[i])
    requires forall b :: b in blames && Intersects(start, end, b) ==> LexLe(b.date, blames[i].date)
    ensures LastChangedFromBlameRange(start, end, blames) == Some(blames[i].date)
  {
    var r := LastChangedFromBlameRange(start, end, blames);
    assert blames[i] in blames;
    LexLeAntisymmetric(r.value, blames[i].date);
  }

  /** The form the worked cases take: every intersecting range is dated
      `lo` or `hi.date`, and `hi` is the later of the two. */
  lemma PickLatest(start: int, end: int, blames: seq<Blame>, lo: string, hi: Blame)
    requires hi in blames && Intersects(start, end, hi)
    requires forall b :: b in blames && Intersects(start, end, b) ==> b.date == lo || b.date == hi.date
    requires lo == hi.date || !LexLe(hi.date, lo)
    ensures LastChangedFromBlameRange(start, end, blames) == Some(hi.date)
  {
  }

  /** Lines 1-5 of the three-range fixture touch only its first range. */
  lemma BlameCaseSingleRange(f: seq<Blame>)
    requires f == SimpleFixture()
    ensures LastChangedFromBlameRange(1, 5, f) == Some("2018-01-01T00:00:00")
  {
    assert forall b :: b in f && Intersects(1, 5, b) ==> b == f[0];
  }

  /** Lines 6-18 of the three-range fixture touch all three ranges, and the
      middle one is the newest. */
  lemma BlameCaseNewestWins(f: seq<Blame>)
    requires f == SimpleFixture()
    ensures LastChangedFromBlameRange(6, 18, f) == Some("2018-02-02T00:00:00")
  {
    assert forall b :: b in f ==> b.date == f[0].date || b.date == f[1].date;
    assert !LexLe(f[1].date, f[0].date);
    PickLatest(6, 18, f, f[0].date, f[1]);
  }

  /** Lines 10-21 of the seven-range fixture touch the ranges dated
      2018-05-05 and 2018-06-06; the later one wins. */
  lemma BlameCaseAdjacent(f: seq<Blame>)
    requires f == ComplexFixture()
    ensures LastChangedFromBlameRange(10, 21, f) == Some("2018-06-06T00:00:00")
  {
    assert forall b :: b in f && Intersects(10, 21, b) ==> b.date == f[4].date || b.date == f[5].date;
    assert !LexLe(f[5].date, f[4].date);
    PickLatest(10, 21, f, f[4].date, f[5]);
  }
}
