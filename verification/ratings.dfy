/** The score of hosting/server/ratings.py: the lower bound of the Wilson interval with z = 1.96. */
module WilsonScore {

  /** s is the root the script takes. */
  predicate IsRoot(s: real, pos: real, neg: real)
    requires pos + neg > 0.0
  {
    s >= 0.0 && s * s == pos * neg / (pos + neg) + 0.9604
  }

  function Score(pos: real, neg: real, s: real): real
    requires pos > 0.0 && neg > 0.0
  {
    var n := pos + neg;
    4.0 * (((pos + 1.9208) / n - (1.96 * s) / n) / (1.0 + 3.8416 / n))
  }

  lemma Cancel(a: real, n: real)
    requires n > 0.0
    ensures a / n * n == a
  {
  }

  /** The score without its divisions. */
  lemma ScoreEquation(pos: real, neg: real, s: real)
    requires pos > 0.0 && neg > 0.0
    ensures Score(pos, neg, s) / 4.0 * (pos + neg + 3.8416) == pos + 1.9208 - 1.96 * s
  {
    var n := pos + neg;
    var a, b, c := (pos + 1.9208) / n, (1.96 * s) / n, 1.0 + 3.8416 / n;
    Cancel(pos + 1.9208, n);
    Cancel(1.96 * s, n);
    Cancel(3.8416, n);
    assert c * n == n + 3.8416;
    Cancel(a - b, c);
    var w := (a - b) / c;
    assert w * c == a - b;
    assert w * (c * n) == (w * c) * n == (a - b) * n == a * n - b * n;
  }

  lemma LessBySquares(a: real, b: real)
    requires b > 0.0 && a * a < b * b
    ensures a < b
  {
  }

  lemma LessByProducts(a: real, b: real, c: real)
    requires c > 0.0 && a * c < b * c
    ensures a < b
  {
  }

  lemma {:induction false} RootIsBetween(pos: real, neg: real, s: real, q: real)
    requires pos > 0.0 && neg > 0.0 && s >= 0.0 && q * (pos + neg) == pos * neg && s * s == q + 0.9604
    ensures 0.98 < s && 1.96 * s < pos + 1.9208
  {
    var n := pos + neg;
    assert q * n == pos * neg > 0.0;
    LessByProducts(0.0, q, n);
    assert pos * n == pos * neg + pos * pos > q * n;
    LessByProducts(q, pos, n);
    LessBySquares(0.98, s);
    assert (1.96 * s) * (1.96 * s) == 3.8416 * q + 3.8416 * 0.9604;
    assert (pos + 1.9208) * (pos + 1.9208) == pos * pos + 3.8416 * pos + 3.8416 * 0.9604;
    LessBySquares(1.96 * s, pos + 1.9208);
  }

  lemma {:induction false} QuarterBounds(w: real, n: real, pos: real, s: real, p: real)
    requires n > 0.0 && p > 0.0 && p * n == pos && 0.98 < s && 1.96 * s < pos + 1.9208
    requires w * (n + 3.8416) == pos + 1.9208 - 1.96 * s
    ensures 0.0 < w < p
  {
    assert 0.0 * (n + 3.8416) < w * (n + 3.8416);
    LessByProducts(0.0, w, n + 3.8416);
    assert p * (n + 3.8416) == pos + 3.8416 * p;
    LessByProducts(w, p, n + 3.8416);
  }

  lemma {:induction false} ShareBounds(pos: real, n: real)
    requires 0.0 < pos < n
    ensures 0.0 < pos / n < 1.0 && pos / n * n == pos
  {
    Cancel(pos, n);
    LessByProducts(0.0, pos / n, n);
    LessByProducts(pos / n, 1.0, n);
  }

  /** The score is above 0 and below four times the share of pos. */
  lemma {:induction false} ScoreBounds(pos: real, neg: real, s: real)
    requires pos > 0.0 && neg > 0.0 && IsRoot(s, pos, neg)
    ensures 0.0 < Score(pos, neg, s) < 4.0 * (pos / (pos + neg)) < 4.0
  {
    var n := pos + neg;
    Cancel(pos * neg, n);
    RootIsBetween(pos, neg, s, pos * neg / n);
    ScoreEquation(pos, neg, s);
    ShareBounds(pos, n);
    QuarterBounds(Score(pos, neg, s) / 4.0, n, pos, s, pos / n);
  }

  /** w is the lower solution of (pos - n * w)^2 = z^2 * n * w * (1 - w), which bounds the interval. */
  predicate OnWilson(w: real, pos: real, neg: real) {
    var n := pos + neg;
    0.0 < w < 1.0 && n * w < pos && (pos - n * w) * (pos - n * w) == 3.8416 * n * (w * (1.0 - w))
  }

  /** The equation of the interval's ends, at the score's quarter w. */
  lemma {:induction false} WilsonEquation(pos: real, neg: real, s: real)
    requires pos > 0.0 && neg > 0.0 && IsRoot(s, pos, neg)
    ensures OnWilson(Score(pos, neg, s) / 4.0, pos, neg)
  {
    var n, w := pos + neg, Score(pos, neg, s) / 4.0;
    var q, a, c := pos * neg / n, n + 3.8416, pos + 1.9208;
    ScoreBounds(pos, neg, s);
    ScoreEquation(pos, neg, s);
    Cancel(pos * neg, n);
    Cancel(pos, n);
    Root(w, n, pos, neg, s, q);
  }

  lemma {:induction false} Root(w: real, n: real, pos: real, neg: real, s: real, q: real)
    requires n == pos + neg > 0.0 && q * n == pos * neg && s * s == q + 0.9604
    requires w * (n + 3.8416) == pos + 1.9208 - 1.96 * s
    ensures (pos - n * w) * (pos - n * w) == 3.8416 * n * (w * (1.0 - w))
  {
    var a, c := n + 3.8416, pos + 1.9208;
    var x := w * a;
    assert (c - x) * (c - x) == 3.8416 * (q + 0.9604);
    assert n * ((c - x) * (c - x)) == 3.8416 * (pos * neg) + 3.8416 * 0.9604 * n;
    var g := (pos - n * w) * (pos - n * w) - 3.8416 * n * (w * (1.0 - w));
    assert a * g == 0.0;
  }

  /** The equation in terms of the odds u = w / (1 - w) and of d = pos - neg * u. */
  lemma {:induction false} OddsEquation(w: real, pos: real, neg: real, n: real) returns (u: real, d: real)
    requires pos > 0.0 && neg > 0.0 && n == pos + neg && OnWilson(w, pos, neg)
    ensures 0.0 < u && u * (1.0 - w) == w && 0.0 < d && d == pos - neg * u && d * d == 3.8416 * n * u
  {
    u := OddsOf(w);
    d := pos - neg * u;
    OddsRoot(w, pos, neg, n, u, d);
  }

  lemma {:induction false} OddsRoot(w: real, pos: real, neg: real, n: real, u: real, d: real)
    requires pos > 0.0 && neg > 0.0 && n == pos + neg && OnWilson(w, pos, neg)
    requires u * (1.0 - w) == w && d == pos - neg * u
    ensures 0.0 < u && 0.0 < d && d * d == 3.8416 * n * u
  {
    var m := 1.0 - w;
    LessByProducts(0.0, u, m);
    assert d * m == pos * m - neg * (u * m) == pos - n * w;
    LessByProducts(0.0, d, m);
    var x, y := d * d, 3.8416 * n * u;
    assert x * (m * m) == (d * m) * (d * m);
    assert y * (m * m) == 3.8416 * n * ((u * m) * m);
    SameByProducts(x, y, m * m);
  }

  lemma SameByProducts(a: real, b: real, c: real)
    requires c > 0.0 && a * c == b * c
    ensures a == b
  {
  }

  lemma ProductsOrdered(a: real, b: real, c: real, d: real)
    requires 0.0 <= a <= b && 0.0 <= c <= d
    ensures a * c <= b * d
  {
    assert a * c <= b * c <= b * d;
  }

  lemma ProductsScaled(a: real, b: real, c: real, e: real)
    requires 0.0 < a <= b && 0.0 < c <= e
    ensures 3.8416 * a * c <= (3.8416 * e) * b
    ensures a < b ==> 3.8416 * a * c < (3.8416 * e) * b
  {
    ProductsOrdered(b, b, c, e);
    if a < b { LessTimes(a, b, c); }
  }

  lemma OddsBelow(d: real, n: real, v: real)
    requires 0.0 < d < n && v * n == d * d
    ensures v < d
  {
    LessTimes(d, n, d);
    LessByProducts(v, d, n);
  }

  lemma {:induction false} TooLowForMore(d: real, n: real, v: real, more: real, x: real, d': real)
    requires 0.0 < d && v < d && v * n == d * d && 0.0 < more && d + more <= d' && x <= v * (n + more)
    ensures x < d' * d'
  {
    assert v * (n + more) == d * d + v * more;
    LessTimes(v, d, more);
    assert d * more > 0.0;
    ProductsOrdered(d + more, d', d + more, d');
  }

  lemma LessTimes(a: real, b: real, c: real)
    requires a < b && 0.0 < c
    ensures a * c < b * c
  {
  }

  lemma {:induction false} EndsTooLow(d: real, n: real, u: real, more: real, n': real, u': real, d': real)
    requires 0.0 < d < n && 0.0 <= more && 0.0 < u' <= u && 0.0 < n' <= n + more && (more > 0.0 || n' < n)
    requires d + more <= d' && d * d == 3.8416 * n * u
    ensures 3.8416 * n' * u' < d' * d'
  {
    if more > 0.0 {
      OddsBelow(d, n, 3.8416 * u);
      ProductsScaled(n', n + more, u', u);
      TooLowForMore(d, n, 3.8416 * u, more, 3.8416 * n' * u', d');
    } else {
      ProductsScaled(n', n, u', u);
      ProductsOrdered(d, d', d, d');
    }
  }

  /** With more pos or less neg, odds no better than before are too low for the equation. */
  lemma {:induction false} OddsTooLow(pos: real, neg: real, n: real, u: real, d: real,
                                      pos': real, neg': real, n': real, u': real, d': real)
    requires 0.0 < pos <= pos' && 0.0 < neg' <= neg && (pos < pos' || neg' < neg)
    requires n == pos + neg && n' == pos' + neg'
    requires 0.0 < u' <= u && d == pos - neg * u && d' == pos' - neg' * u'
    requires 0.0 < d && d * d == 3.8416 * n * u
    ensures 3.8416 * n' * u' < d' * d'
  {
    var x, x' := neg * u, neg' * u';
    assert 0.0 < x' <= x by {
      ProductsOrdered(neg', neg, u', u);
      LessTimes(0.0, neg', u');
    }
    assert d < n && d + (pos' - pos) <= d';
    EndsTooLow(d, n, u, pos' - pos, n', u', d');
  }

  lemma OddsOf(w: real) returns (u: real)
    requires 0.0 < w < 1.0
    ensures u * (1.0 - w) == w
  {
    Cancel(w, 1.0 - w);
    u := w / (1.0 - w);
  }

  lemma {:induction false} OddsRise(pos: real, neg: real, n: real, u: real, d: real,
                                    pos': real, neg': real, n': real, u': real, d': real)
    requires 0.0 < pos <= pos' && 0.0 < neg' <= neg && (pos < pos' || neg' < neg)
    requires n == pos + neg && n' == pos' + neg'
    requires 0.0 < u && d == pos - neg * u && 0.0 < d && d * d == 3.8416 * n * u
    requires 0.0 < u' && d' == pos' - neg' * u' && d' * d' == 3.8416 * n' * u'
    ensures u < u'
  {
    if u' <= u {
      OddsTooLow(pos, neg, n, u, d, pos', neg', n', u', d');
      assert false;
    }
  }

  lemma {:induction false} FromOdds(w: real, u: real, w': real, u': real)
    requires 0.0 < w < 1.0 && 0.0 < w' < 1.0 && u * (1.0 - w) == w && u' * (1.0 - w') == w'
    requires 0.0 < u < u'
    ensures w < w'
  {
    assert w * (1.0 + u) == u && w' * (1.0 + u') == u';
    assert u * (1.0 + u') < u' * (1.0 + u);
    assert w * ((1.0 + u) * (1.0 + u')) == u * (1.0 + u');
    assert w' * ((1.0 + u) * (1.0 + u')) == u' * (1.0 + u);
    LessByProducts(w, w', (1.0 + u) * (1.0 + u'));
  }

  lemma {:induction false} QuartersRise(w: real, pos: real, neg: real, n: real,
                                        w': real, pos': real, neg': real, n': real)
    requires 0.0 < pos <= pos' && 0.0 < neg' <= neg && (pos < pos' || neg' < neg)
    requires n == pos + neg && n' == pos' + neg' && OnWilson(w, pos, neg) && OnWilson(w', pos', neg')
    ensures w < w'
  {
    var u, d := OddsEquation(w, pos, neg, n);
    var u', d' := OddsEquation(w', pos', neg', n');
    OddsRise(pos, neg, n, u, d, pos', neg', n', u', d');
    FromOdds(w, u, w', u');
  }

  /** More pos or less neg means a higher score. */
  lemma {:induction false} ScoreRises(pos: real, neg: real, s: real, pos': real, neg': real, s': real)
    requires 0.0 < pos <= pos' && 0.0 < neg' <= neg && (pos < pos' || neg' < neg)
    requires IsRoot(s, pos, neg) && IsRoot(s', pos', neg')
    ensures Score(pos, neg, s) < Score(pos', neg', s')
  {
    WilsonEquation(pos, neg, s);
    WilsonEquation(pos', neg', s');
    QuartersRise(Score(pos, neg, s) / 4.0, pos, neg, pos + neg, Score(pos', neg', s') / 4.0, pos', neg', pos' + neg');
  }
}

/** The review lists of hosting/server/reviews.py and the counters of hosting/server/ratings.py. */
module Ratings {
  import opened Options
  import opened WilsonScore

  type User = string

  type App = string

  datatype Review = Review(app: App, rating: int)

  // --- A user's reviews ---------------------------------------------------------------------

  function GetReview(app: App, reviews: seq<Review>): Option<Review> {
    if reviews == [] then None
    else if app == reviews[0].app then Some(reviews[0])
    else GetReview(app, reviews[1..])
  }

  function PutReview(app: App, review: Review, reviews: seq<Review>): seq<Review> {
    if reviews == [] then [review]
    else if app == reviews[0].app then [review] + reviews[1..]
    else [reviews[0]] + PutReview(app, review, reviews[1..])
  }

  function DeleteReview(app: App, reviews: seq<Review>): seq<Review> {
    if reviews == [] then []
    else if app == reviews[0].app then reviews[1..]
    else [reviews[0]] + DeleteReview(app, reviews[1..])
  }

  /** The rating sent in a patch: "0" stands for no review. */
  function RatingOf(review: Option<Review>): int { if review.None? then 0 else review.value.rating }

  predicate OnePerApp(reviews: seq<Review>) {
    reviews == [] || (GetReview(reviews[0].app, reviews[1..]).None? && OnePerApp(reviews[1..]))
  }

  /** A put is read back, leaves every other app's review alone, and keeps one review per app. */
  lemma {:induction false} PutReviewLaws(app: App, review: Review, reviews: seq<Review>, other: App)
    requires review.app == app && OnePerApp(reviews)
    ensures OnePerApp(PutReview(app, review, reviews))
    ensures GetReview(other, PutReview(app, review, reviews))
         == if other == app then Some(review) else GetReview(other, reviews)
    ensures |PutReview(app, review, reviews)| == |reviews| + if GetReview(app, reviews).None? then 1 else 0
  {
    if reviews != [] && app != reviews[0].app {
      PutReviewLaws(app, review, reviews[1..], other);
      PutReviewLaws(app, review, reviews[1..], reviews[0].app);
    }
  }

  lemma {:induction false} DeleteReviewLaws(app: App, reviews: seq<Review>, other: App)
    requires OnePerApp(reviews)
    ensures OnePerApp(DeleteReview(app, reviews))
    ensures GetReview(other, DeleteReview(app, reviews)) == if other == app then None else GetReview(other, reviews)
    ensures |DeleteReview(app, reviews)| == |reviews| - if GetReview(app, reviews).None? then 0 else 1
  {
    if reviews != [] && app != reviews[0].app {
      DeleteReviewLaws(app, reviews[1..], other);
      DeleteReviewLaws(app, reviews[1..], reviews[0].app);
    }
  }

  /** The new review takes the place of the old one, or comes last. */
  lemma {:induction false} PutReviewPlace(app: App, review: Review, reviews: seq<Review>) returns (i: nat)
    ensures i <= |reviews| && forall j | 0 <= j < i :: reviews[j].app != app
    ensures if i == |reviews| then PutReview(app, review, reviews) == reviews + [review]
            else reviews[i].app == app && PutReview(app, review, reviews) == reviews[i := review]
  {
    i := 0;
    if reviews != [] && reviews[0].app != app {
      var k := PutReviewPlace(app, review, reviews[1..]);
      i := k + 1;
    }
  }

  /** The deleted review leaves the others in their order. */
  lemma {:induction false} DeleteReviewPlace(app: App, reviews: seq<Review>) returns (i: nat)
    ensures i <= |reviews| && forall j | 0 <= j < i :: reviews[j].app != app
    ensures if i == |reviews| then DeleteReview(app, reviews) == reviews
            else reviews[i].app == app && DeleteReview(app, reviews) == reviews[..i] + reviews[i + 1..]
  {
    i := 0;
    if reviews != [] && reviews[0].app != app {
      var k := DeleteReviewPlace(app, reviews[1..]);
      i := k + 1;
      assert [reviews[0]] + reviews[1..][..k] == reviews[..i];
      assert [reviews[0]] + reviews[1..] == reviews;
    }
  }

  // --- The patch script ---------------------------------------------------------------------

  function CalcRating(v: int, i: int, orating: int, nrating: int): int {
    var nv := v + if i == orating then -1 else if i == nrating then 1 else 0;
    if nv < 0 then 0 else nv
  }

  function CalcRatings(r: seq<int>, i: int, orating: int, nrating: int): (s: seq<int>)
    ensures |s| == |r| && forall k | 0 <= k < |r| :: s[k] == CalcRating(r[k], i + k, orating, nrating)
  {
    if r == [] then [] else [CalcRating(r[0], i, orating, nrating)] + CalcRatings(r[1..], i + 1, orating, nrating)
  }

  // --- The ledger ---------------------------------------------------------------------------

  datatype Ledger = Ledger(apps: set<App>, reviews: map<User, seq<Review>>, counters: map<App, seq<int>>) {

    function Reviews(user: User): seq<Review> { if user in reviews then reviews[user] else [] }

    /** Four counters, all 0 before the first patch. */
    function Counters(app: App): seq<int> { if app in counters then counters[app] else [0, 0, 0, 0] }

    function Rating(user: User, app: App): int { RatingOf(GetReview(app, Reviews(user))) }

    function Patch(app: App, orating: int, nrating: int): Ledger {
      this.(counters := counters[app := CalcRatings(Counters(app), 1, orating, nrating)])
    }

    /** Writes a user's reviews, then patches the counters of one app. */
    function Update(user: User, rs: seq<Review>, app: App, orating: int, nrating: int): Ledger {
      this.(reviews := reviews[user := rs]).Patch(app, orating, nrating)
    }

    function Put(user: User, app: App, rating: int): Ledger {
      if app !in apps then this
      else Update(user, PutReview(app, Review(app, rating), Reviews(user)), app, Rating(user, app), rating)
    }

    function Delete(user: User, app: App): Ledger {
      if app !in apps || GetReview(app, Reviews(user)).None? then this
      else Update(user, DeleteReview(app, Reviews(user)), app, Rating(user, app), 0)
    }

    /** A delete without an app drops the user's whole record and patches no counter. */
    function DeleteAll(user: User): Ledger { this.(reviews := reviews - {user}) }

    predicate WellFormed() {
      && (forall user | user in reviews :: OnePerApp(reviews[user]))
      && (forall app | app in counters :: |counters[app]| == 4)
    }

    /** The users whose stored review gives the app this rating. */
    function Raters(app: App, i: int): set<User> { set user | user in reviews && Rating(user, app) == i }

    ghost predicate AgreesAt(app: App, i: int)
      requires WellFormed() && 1 <= i <= 4
    {
      Counters(app)[i - 1] == |Raters(app, i)|
    }

    /** Counter i of each app is the number of users whose stored review of it is i. */
    ghost predicate Agrees()
      requires WellFormed()
    {
      forall app, i | 1 <= i <= 4 :: AgreesAt(app, i)
    }
  }

  function Has(rating: int, i: int): nat { if rating == i then 1 else 0 }

  lemma {:induction false} RatersWithout(l: Ledger, user: User, app: App, i: int)
    requires 1 <= i
    ensures |l.Raters(app, i)| == |l.Raters(app, i) - {user}| + Has(l.Rating(user, app), i)
  {
    var raters := l.Raters(app, i);
    if user in raters {
      assert raters == raters - {user} + {user};
    } else {
      assert raters == raters - {user};
    }
  }

  predicate OnlyUserDiffers(l: Ledger, l': Ledger, user: User) {
    && l'.reviews.Keys - {user} == l.reviews.Keys - {user}
    && forall u | u in l.reviews.Keys - {user} :: l'.reviews[u] == l.reviews[u]
  }

  lemma {:induction false} OtherRatersStay(l: Ledger, l': Ledger, user: User, app: App, i: int)
    requires OnlyUserDiffers(l, l', user)
    ensures l'.Raters(app, i) - {user} == l.Raters(app, i) - {user}
  {
    forall u
      ensures u in l.Raters(app, i) - {user} <==> u in l'.Raters(app, i) - {user}
    {
      assert u in l.reviews.Keys - {user} <==> u in l'.reviews.Keys - {user};
    }
  }

  /** The raters of an app after one user's list changes. */
  lemma {:induction false} RatersChange(l: Ledger, l': Ledger, user: User, app: App, i: int)
    requires 1 <= i && OnlyUserDiffers(l, l', user)
    ensures l.Rating(user, app) == i ==> |l.Raters(app, i)| > 0
    ensures |l'.Raters(app, i)| == |l.Raters(app, i)| - Has(l.Rating(user, app), i) + Has(l'.Rating(user, app), i)
  {
    RatersWithout(l, user, app, i);
    RatersWithout(l', user, app, i);
    OtherRatersStay(l, l', user, app, i);
  }

  /** An update of an agreeing ledger that gives the app the new rating keeps counter i in agreement,
      unless the old and the new rating are both i: the script tests the old one first. */
  lemma {:induction false} UpdateAgreesAtIff(l: Ledger, user: User, rs: seq<Review>, app: App, nrating: int, i: int)
    requires l.WellFormed() && OnePerApp(rs) && 1 <= i <= 4 && l.AgreesAt(app, i)
    requires RatingOf(GetReview(app, rs)) == nrating
    ensures var orating, l' := l.Rating(user, app), l.Update(user, rs, app, l.Rating(user, app), nrating);
            && l'.WellFormed() && (l'.AgreesAt(app, i) <==> !(orating == i == nrating))
            && l'.Counters(app)[i - 1] == l.Counters(app)[i - 1] - Has(orating, i)
                                          + (if orating == i then 0 else Has(nrating, i))
  {
    var l' := l.Update(user, rs, app, l.Rating(user, app), nrating);
    RatersChange(l, l', user, app, i);
  }

  /** The counters of the other apps stay right when their reviews stay. */
  lemma {:induction false} UpdateLeavesOthers(l: Ledger, user: User, rs: seq<Review>, app: App, nrating: int,
                                              other: App, i: int)
    requires l.WellFormed() && OnePerApp(rs) && 1 <= i <= 4 && l.AgreesAt(other, i) && other != app
    requires GetReview(other, rs) == GetReview(other, l.Reviews(user))
    ensures var l' := l.Update(user, rs, app, l.Rating(user, app), nrating);
            l'.WellFormed() && l'.AgreesAt(other, i)
  {
    RatersChange(l, l.Update(user, rs, app, l.Rating(user, app), nrating), user, other, i);
  }

  /** What makes a put miscount: the user gave the app the same rating before. */
  predicate RepeatsRating(l: Ledger, user: User, app: App, rating: int) {
    app in l.apps && rating == l.Rating(user, app) && 1 <= rating <= 4
  }

  lemma {:induction false} OneReviewPerApp(l: Ledger, user: User)
    requires l.WellFormed()
    ensures OnePerApp(l.Reviews(user))
  {
  }

  /** A put keeps the counters in agreement with the reviews exactly when it does not repeat the
      user's rating. */
  lemma {:induction false} PutAgreesIff(l: Ledger, user: User, app: App, rating: int)
    requires l.WellFormed() && l.Agrees()
    ensures l.Put(user, app, rating).WellFormed()
    ensures l.Put(user, app, rating).Agrees() <==> !RepeatsRating(l, user, app, rating)
    ensures app in l.apps ==> l.Put(user, app, rating).Rating(user, app) == rating
  {
    OneReviewPerApp(l, user);
    if app in l.apps {
      var orating, l' := l.Rating(user, app), l.Put(user, app, rating);
      var rs := PutReview(app, Review(app, rating), l.Reviews(user));
      PutReviewLaws(app, Review(app, rating), l.Reviews(user), app);
      forall i | 1 <= i <= 4
        ensures l'.WellFormed() && (l'.AgreesAt(app, i) <==> !(orating == i == rating))
      {
        assert l.AgreesAt(app, i);
        UpdateAgreesAtIff(l, user, rs, app, rating, i);
      }
      forall other, i | 1 <= i <= 4 && other != app
        ensures l'.AgreesAt(other, i)
      {
        assert l.AgreesAt(other, i);
        PutReviewLaws(app, Review(app, rating), l.Reviews(user), other);
        UpdateLeavesOthers(l, user, rs, app, rating, other, i);
      }
      if RepeatsRating(l, user, app, rating) { assert !l'.AgreesAt(app, rating); }
    }
  }

  /** The delete of one review always keeps the agreement. */
  lemma {:induction false} DeleteAgrees(l: Ledger, user: User, app: App)
    requires l.WellFormed() && l.Agrees()
    ensures l.Delete(user, app).WellFormed() && l.Delete(user, app).Agrees()
    ensures app in l.apps ==> l.Delete(user, app).Rating(user, app) == 0
  {
    OneReviewPerApp(l, user);
    var review := GetReview(app, l.Reviews(user));
    if app in l.apps && review.Some? {
      var l', rs := l.Delete(user, app), DeleteReview(app, l.Reviews(user));
      DeleteReviewLaws(app, l.Reviews(user), app);
      forall i | 1 <= i <= 4 ensures l'.WellFormed() && l'.AgreesAt(app, i) {
        assert l.AgreesAt(app, i);
        UpdateAgreesAtIff(l, user, rs, app, 0, i);
      }
      forall other, i | 1 <= i <= 4 && other != app ensures l'.AgreesAt(other, i) {
        assert l.AgreesAt(other, i);
        DeleteReviewLaws(app, l.Reviews(user), other);
        UpdateLeavesOthers(l, user, rs, app, 0, other, i);
      }
    }
  }

  /** A review that some counter counts. */
  predicate HasCounted(reviews: seq<Review>) { exists r | r in reviews :: 1 <= r.rating <= 4 }

  lemma {:induction false} GetReviewFinds(reviews: seq<Review>, r: Review)
    requires OnePerApp(reviews) && r in reviews
    ensures GetReview(r.app, reviews) == Some(r)
  {
    if r != reviews[0] { GetReviewFinds(reviews[1..], r); }
  }

  lemma {:induction false} FoundReviewIsStored(reviews: seq<Review>, app: App)
    ensures GetReview(app, reviews).Some? ==> GetReview(app, reviews).value in reviews
  {
    if reviews != [] { FoundReviewIsStored(reviews[1..], app); }
  }

  /** Dropping a user's record keeps the agreement exactly when no review in it was counted. */
  lemma {:induction false} DeleteAllAgreesIff(l: Ledger, user: User)
    requires l.WellFormed() && l.Agrees()
    ensures l.DeleteAll(user).WellFormed()
    ensures l.DeleteAll(user).Agrees() <==> !HasCounted(l.Reviews(user))
  {
    var l', rs := l.DeleteAll(user), l.Reviews(user);
    OneReviewPerApp(l, user);
    forall app, i | 1 <= i <= 4
      ensures l'.AgreesAt(app, i) <==> l.Rating(user, app) != i
    {
      assert l.AgreesAt(app, i);
      RatersChange(l, l', user, app, i);
    }
    if HasCounted(rs) {
      var r :| r in rs && 1 <= r.rating <= 4;
      GetReviewFinds(rs, r);
      assert !l'.AgreesAt(r.app, r.rating);
    } else {
      forall app, i | 1 <= i <= 4 ensures l'.AgreesAt(app, i) { FoundReviewIsStored(rs, app); }
    }
  }

  /** A user who puts the rating 3 twice is counted no more, though the review is stored. */
  lemma RepeatedPutMiscounts(user: User, app: App)
    ensures var l := Ledger({app}, map[], map[]).Put(user, app, 3).Put(user, app, 3);
            l.Rating(user, app) == 3 && l.Counters(app) == [0, 0, 0, 0]
  {
    var l1 := Ledger({app}, map[], map[]).Put(user, app, 3);
    assert l1.Counters(app) == [0, 0, 1, 0];
    assert l1.Rating(user, app) == 3;
  }

  // --- Every run ----------------------------------------------------------------------------

  datatype Request =
    | PutRequest(user: User, app: App, rating: int)
    | DeleteRequest(user: User, app: App)
    | DeleteAllRequest(user: User)
    | NewApps(apps: set<App>)  // the apps component adds or removes apps

  function Serve(l: Ledger, r: Request): Ledger {
    match r
    case PutRequest(user, app, rating) => l.Put(user, app, rating)
    case DeleteRequest(user, app) => l.Delete(user, app)
    case DeleteAllRequest(user) => l.DeleteAll(user)
    case NewApps(apps) => l.(apps := apps)
  }

  predicate Countable(l: Ledger, r: Request) {
    match r
    case PutRequest(user, app, rating) => !RepeatsRating(l, user, app, rating)
    case DeleteRequest(_, _) => true
    case DeleteAllRequest(user) => !HasCounted(l.Reviews(user))
    case NewApps(_) => true
  }

  lemma {:induction false} ServeAgreesIff(l: Ledger, r: Request)
    requires l.WellFormed() && l.Agrees()
    ensures Serve(l, r).WellFormed() && (Serve(l, r).Agrees() <==> Countable(l, r))
  {
    match r
    case PutRequest(user, app, rating) => PutAgreesIff(l, user, app, rating);
    case DeleteRequest(user, app) => DeleteAgrees(l, user, app);
    case DeleteAllRequest(user) => DeleteAllAgreesIff(l, user);
    case NewApps(apps) =>
      forall app, i | 1 <= i <= 4 ensures l.(apps := apps).AgreesAt(app, i) {
        assert l.AgreesAt(app, i);
        assert l.(apps := apps).Raters(app, i) == l.Raters(app, i);
      }
  }

  function ServeAll(l: Ledger, rs: seq<Request>): Ledger
    decreases |rs|
  {
    if rs == [] then l else ServeAll(Serve(l, rs[0]), rs[1..])
  }

  predicate AllCountable(l: Ledger, rs: seq<Request>)
    decreases |rs|
  {
    rs == [] || (Countable(l, rs[0]) && AllCountable(Serve(l, rs[0]), rs[1..]))
  }

  /** Over every run of countable requests the counters count the stored reviews. */
  lemma {:induction false} EveryRunAgrees(l: Ledger, rs: seq<Request>)
    requires l.WellFormed() && l.Agrees() && AllCountable(l, rs)
    ensures ServeAll(l, rs).WellFormed() && ServeAll(l, rs).Agrees()
    decreases |rs|
  {
    if rs != [] {
      ServeAgreesIff(l, rs[0]);
      EveryRunAgrees(Serve(l, rs[0]), rs[1..]);
    }
  }

  lemma {:induction false} EmptyLedgerAgrees(apps: set<App>)
    ensures Ledger(apps, map[], map[]).WellFormed() && Ledger(apps, map[], map[]).Agrees()
  {
    var l := Ledger(apps, map[], map[]);
    forall app, i | 1 <= i <= 4 ensures l.AgreesAt(app, i) { assert l.Raters(app, i) == {}; }
  }

  /** From an empty ledger on, with any apps. */
  lemma {:induction false} EveryRunFromEmptyAgrees(apps: set<App>, rs: seq<Request>)
    requires AllCountable(Ledger(apps, map[], map[]), rs)
    ensures var l := ServeAll(Ledger(apps, map[], map[]), rs); l.WellFormed() && l.Agrees()
  {
    EmptyLedgerAgrees(apps);
    EveryRunAgrees(Ledger(apps, map[], map[]), rs);
  }

  // --- The score and the reviews ------------------------------------------------------------

  function Neg(c: seq<int>): real
    requires |c| == 4
  {
    (1 + (c[0] * 2 + c[1])) as real
  }

  function Pos(c: seq<int>): real
    requires |c| == 4
  {
    (1 + (c[3] * 2 + c[2])) as real
  }

  /** How much a review speaks for an app: ratings 1 and 2 against it, no review neither way. */
  function Weight(rating: int): int {
    match rating
    case 1 => -2
    case 2 => -1
    case 3 => 1
    case 4 => 2
    case _ => 0
  }

  /** The scores of an app before and after a put or delete, by the roots the script takes. */
  predicate Scored(l: Ledger, app: App, s: real)
    requires l.WellFormed()
  {
    var c := l.Counters(app);
    Pos(c) > 0.0 && Neg(c) > 0.0 && IsRoot(s, Pos(c), Neg(c))
  }

  function ScoreOf(l: Ledger, app: App, s: real): real
    requires l.WellFormed() && Scored(l, app, s)
  {
    Score(Pos(l.Counters(app)), Neg(l.Counters(app)), s)
  }

  /** The score moves the way the weight of the one review moves. */
  predicate FollowsWeight(l: Ledger, l': Ledger, app: App, s: real, s': real, orating: int, nrating: int)
    requires l.WellFormed() && l'.WellFormed() && Scored(l, app, s) && Scored(l', app, s')
  {
    && (Weight(orating) < Weight(nrating) ==> ScoreOf(l, app, s) < ScoreOf(l', app, s'))
    && (Weight(nrating) < Weight(orating) ==> ScoreOf(l', app, s') < ScoreOf(l, app, s))
  }

  lemma {:induction false} UpdateFollowsWeight(l: Ledger, user: User, rs: seq<Review>, app: App, nrating: int,
                                               s: real, s': real)
    requires l.WellFormed() && l.Agrees() && OnePerApp(rs) && RatingOf(GetReview(app, rs)) == nrating
    requires !(l.Rating(user, app) == nrating && 1 <= nrating <= 4)
    requires Scored(l, app, s)
    requires var l' := l.Update(user, rs, app, l.Rating(user, app), nrating);
             l'.WellFormed() && Scored(l', app, s')
    ensures var orating := l.Rating(user, app);
            FollowsWeight(l, l.Update(user, rs, app, orating, nrating), app, s, s', orating, nrating)
  {
    var orating := l.Rating(user, app);
    var l' := l.Update(user, rs, app, orating, nrating);
    var c, c' := l.Counters(app), l'.Counters(app);
    forall i | 1 <= i <= 4 ensures c'[i - 1] == c[i - 1] - Has(orating, i) + Has(nrating, i) {
      assert l.AgreesAt(app, i);
      UpdateAgreesAtIff(l, user, rs, app, nrating, i);
    }
    WeightsMove(c, c', orating, nrating);
    if Weight(orating) < Weight(nrating) {
      ScoreRises(Pos(c), Neg(c), s, Pos(c'), Neg(c'), s');
    } else if Weight(nrating) < Weight(orating) {
      ScoreRises(Pos(c'), Neg(c'), s', Pos(c), Neg(c), s);
    }
  }

  lemma WeightsMove(c: seq<int>, c': seq<int>, orating: int, rating: int)
    requires |c| == 4 && |c'| == 4
    requires forall i | 1 <= i <= 4 :: c'[i - 1] == c[i - 1] - Has(orating, i) + Has(rating, i)
    ensures Weight(orating) < Weight(rating) ==>
      Pos(c) <= Pos(c') && Neg(c') <= Neg(c) && (Pos(c) < Pos(c') || Neg(c') < Neg(c))
    ensures Weight(rating) < Weight(orating) ==>
      Pos(c') <= Pos(c) && Neg(c) <= Neg(c') && (Pos(c') < Pos(c) || Neg(c) < Neg(c'))
  {
    assert c'[0] == c[0] - Has(orating, 1) + Has(rating, 1);
    assert c'[1] == c[1] - Has(orating, 2) + Has(rating, 2);
    assert c'[2] == c[2] - Has(orating, 3) + Has(rating, 3);
    assert c'[3] == c[3] - Has(orating, 4) + Has(rating, 4);
  }

  /** While the counters agree with the reviews, every app's score is in bounds. */
  lemma {:induction false} AgreeingScoreBounds(l: Ledger, app: App, s: real)
    requires l.WellFormed() && l.Agrees()
    ensures Pos(l.Counters(app)) >= 1.0 && Neg(l.Counters(app)) >= 1.0
    ensures Scored(l, app, s) ==>
      var pos, neg := Pos(l.Counters(app)), Neg(l.Counters(app));
      0.0 < ScoreOf(l, app, s) < 4.0 * (pos / (pos + neg)) < 4.0
  {
    assert l.AgreesAt(app, 1) && l.AgreesAt(app, 2) && l.AgreesAt(app, 3) && l.AgreesAt(app, 4);
    if Scored(l, app, s) { ScoreBounds(Pos(l.Counters(app)), Neg(l.Counters(app)), s); }
  }

  /** A countable put moves the score of the app the way the user's rating of it moves. */
  lemma {:induction false} PutMovesScore(l: Ledger, user: User, app: App, rating: int, s: real, s': real)
    requires l.WellFormed() && l.Agrees() && app in l.apps && !RepeatsRating(l, user, app, rating)
    requires l.Put(user, app, rating).WellFormed()
    requires Scored(l, app, s) && Scored(l.Put(user, app, rating), app, s')
    ensures FollowsWeight(l, l.Put(user, app, rating), app, s, s', l.Rating(user, app), rating)
  {
    OneReviewPerApp(l, user);
    PutReviewLaws(app, Review(app, rating), l.Reviews(user), app);
    UpdateFollowsWeight(l, user, PutReview(app, Review(app, rating), l.Reviews(user)), app, rating, s, s');
  }

  /** So does the delete of a review. */
  lemma {:induction false} DeleteMovesScore(l: Ledger, user: User, app: App, s: real, s': real)
    requires l.WellFormed() && l.Agrees() && app in l.apps && GetReview(app, l.Reviews(user)).Some?
    requires l.Delete(user, app).WellFormed()
    requires Scored(l, app, s) && Scored(l.Delete(user, app), app, s')
    ensures FollowsWeight(l, l.Delete(user, app), app, s, s', l.Rating(user, app), 0)
  {
    OneReviewPerApp(l, user);
    DeleteReviewLaws(app, l.Reviews(user), app);
    UpdateFollowsWeight(l, user, DeleteReview(app, l.Reviews(user)), app, 0, s, s');
  }

  /** While the counters agree with the reviews, pos counts the users who rated the app 3, those who
      rated it 4 twice, and one more; neg does so with 2 and 1. */
  lemma {:induction false} PosNegCountReviews(l: Ledger, app: App)
    requires l.WellFormed() && l.Agrees()
    ensures Pos(l.Counters(app)) == (1 + |l.Raters(app, 3)| + 2 * |l.Raters(app, 4)|) as real
    ensures Neg(l.Counters(app)) == (1 + |l.Raters(app, 2)| + 2 * |l.Raters(app, 1)|) as real
  {
    assert l.AgreesAt(app, 1) && l.AgreesAt(app, 2) && l.AgreesAt(app, 3) && l.AgreesAt(app, 4);
  }

  // --- Counters that no longer agree --------------------------------------------------------

  predicate NonNegative(l: Ledger) { forall app | app in l.counters :: forall c | c in l.counters[app] :: c >= 0 }

  lemma {:induction false} PatchKeepsNonNegative(r: seq<int>, orating: int, nrating: int)
    ensures forall c | c in CalcRatings(r, 1, orating, nrating) :: c >= 0
  {
  }

  /** Whatever the run, no counter ever goes below 0. */
  lemma {:induction false} EveryRunKeepsNonNegative(l: Ledger, rs: seq<Request>)
    requires NonNegative(l)
    ensures NonNegative(ServeAll(l, rs))
    decreases |rs|
  {
    if rs != [] {
      var q := rs[0];
      match q {
        case PutRequest(user, app, rating) => PatchKeepsNonNegative(l.Counters(app), l.Rating(user, app), rating);
        case DeleteRequest(user, app) => PatchKeepsNonNegative(l.Counters(app), l.Rating(user, app), 0);
        case _ =>
      }
      EveryRunKeepsNonNegative(Serve(l, q), rs[1..]);
    }
  }

  /** What a put does to a counter, agreeing or not: the old rating takes one off, or else the new one
      adds one, and what would be below 0 is 0. */
  lemma {:induction false} PutMovesCounter(l: Ledger, user: User, app: App, rating: int, i: int)
    requires l.WellFormed() && 1 <= i <= 4 && app in l.apps
    ensures var c, l' := l.Counters(app)[i - 1], l.Put(user, app, rating);
            |l'.Counters(app)| == 4 &&
            l'.Counters(app)[i - 1] == if l.Rating(user, app) == i then (if c > 0 then c - 1 else 0)
                                       else if rating == i then (if c >= 0 then c + 1 else 0)
                                       else if c >= 0 then c else 0
  {
  }

  lemma {:induction false} PutIsStored(l: Ledger, user: User, app: App, rating: int)
    requires l.WellFormed() && app in l.apps
    ensures var l' := l.Put(user, app, rating); l'.WellFormed() && l'.apps == l.apps && l'.Rating(user, app) == rating
  {
    OneReviewPerApp(l, user);
    PutReviewLaws(app, Review(app, rating), l.Reviews(user), app);
  }

  function PutTimes(l: Ledger, user: User, app: App, rating: int, n: nat): Ledger {
    if n == 0 then l else PutTimes(l, user, app, rating, n - 1).Put(user, app, rating)
  }

  /** The first put of a rating counts, the second one takes that back, and further ones do nothing. */
  lemma {:induction false} RepeatedPuts(user: User, app: App, rating: int, n: nat)
    requires 1 <= rating <= 4
    ensures var l := PutTimes(Ledger({app}, map[], map[]), user, app, rating, n);
            && l.apps == {app} && l.WellFormed()
            && l.Rating(user, app) == (if n == 0 then 0 else rating)
            && l.Counters(app)[rating - 1] == if n == 1 then 1 else 0
  {
    if n > 0 {
      RepeatedPuts(user, app, rating, n - 1);
      var l := PutTimes(Ledger({app}, map[], map[]), user, app, rating, n - 1);
      PutIsStored(l, user, app, rating);
      PutMovesCounter(l, user, app, rating, rating);
    }
  }

  // --- The components -----------------------------------------------------------------------

  /** The reviews component, with the cache and the ratings component it updates. */
  class ReviewServer {
    var apps: set<App>
    var reviews: map<User, seq<Review>>
    var counters: map<App, seq<int>>

    ghost function State(): Ledger
      reads this
    {
      Ledger(apps, reviews, counters)
    }

    constructor (apps: set<App>)
      ensures State() == Ledger(apps, map[], map[])
    {
      this.apps, reviews, counters := apps, map[], map[];
    }

    /** The patch of ratings.py. */
    method PatchRatings(app: App, orating: int, nrating: int) returns (done: bool)
      modifies this`counters
      ensures done <==> app in apps
      ensures State() == if done then old(State()).Patch(app, orating, nrating) else old(State())
    {
      if app !in apps { return false; }
      var cratings := if app in counters then counters[app] else [0, 0, 0, 0];
      counters := counters[app := CalcRatings(cratings, 1, orating, nrating)];
      done := true;
    }

    method Put(user: User, app: App, rating: int) returns (done: bool)
      modifies this`reviews, this`counters
      ensures done <==> app in apps
      ensures State() == old(State()).Put(user, app, rating)
      ensures !done ==> State() == old(State())
      ensures done ==>
        user in reviews && reviews[user] == PutReview(app, Review(app, rating), old(State()).Reviews(user))
    {
      if app !in apps { return false; }
      var rs := if user in reviews then reviews[user] else [];
      var oreview := GetReview(app, rs);
      reviews := reviews[user := PutReview(app, Review(app, rating), rs)];
      done := PatchRatings(app, RatingOf(oreview), rating);
    }

    method Delete(user: User, app: App) returns (done: bool)
      modifies this`reviews, this`counters
      ensures done <==> app in apps && GetReview(app, old(State()).Reviews(user)).Some?
      ensures State() == old(State()).Delete(user, app)
      ensures !done ==> State() == old(State())
      ensures done ==> user in reviews && reviews[user] == DeleteReview(app, old(State()).Reviews(user))
    {
      if app !in apps { return false; }
      var rs := if user in reviews then reviews[user] else [];
      var review := GetReview(app, rs);
      if review.None? { return false; }
      reviews := reviews[user := DeleteReview(app, rs)];
      done := PatchRatings(app, RatingOf(review), 0);
    }

    /** The user has no review left; the other users keep theirs. */
    method DeleteAll(user: User)
      modifies this`reviews
      ensures State() == old(State()).DeleteAll(user)
      ensures forall app :: State().Rating(user, app) == 0
      ensures forall other, app | other != user :: State().Rating(other, app) == old(State()).Rating(other, app)
    {
      reviews := reviews - {user};
    }
  }

  method Handle(server: ReviewServer, r: Request)
    modifies server
    ensures server.State() == Serve(old(server.State()), r)
  {
    match r
    case PutRequest(user, app, rating) => var _ := server.Put(user, app, rating);
    case DeleteRequest(user, app) => var _ := server.Delete(user, app);
    case DeleteAllRequest(user) => server.DeleteAll(user);
    case NewApps(apps) => server.apps := apps;
  }

  /** Over every run of countable requests to a new server, the counters count the stored reviews. */
  method HandleAll(apps: set<App>, rs: seq<Request>) returns (server: ReviewServer)
    requires AllCountable(Ledger(apps, map[], map[]), rs)
    ensures fresh(server) && server.State().WellFormed() && server.State().Agrees()
    ensures server.State() == ServeAll(Ledger(apps, map[], map[]), rs)
  {
    server := new ReviewServer(apps);
    for i := 0 to |rs|
      invariant fresh(server) && ServeAll(server.State(), rs[i..]) == ServeAll(Ledger(apps, map[], map[]), rs)
    {
      assert rs[i..][1..] == rs[i + 1..];
      Handle(server, rs[i]);
    }
    EveryRunFromEmptyAgrees(apps, rs);
  }
}
