/** normalize_users (analysis/analysis_utilities.py): min-max scaling, in
    place, of every attribute not named in the excluded list. The attribute set
    is taken from the first user; the minimum and maximum of each attribute are
    taken over all users before any value is rewritten. */
module Normalizer {
  import opened Wrappers
  import opened Users

  // ---------------------------------------------------------------------------
  // Specification

  /** The values of attribute `a` in the users that have it, in list order. */
  function Column(ms: seq<map<string, real>>, a: string): seq<real> {
    if ms == [] then []
    else Column(ms[..|ms| - 1], a) + (if a in ms[|ms| - 1] then [ms[|ms| - 1][a]] else [])
  }

  /** Extending the users by one extends each column by that user's value, if any. */
  lemma ColumnSnoc(ms: seq<map<string, real>>, i: nat, a: string)
    requires i < |ms|
    ensures Column(ms[..i + 1], a) == Column(ms[..i], a) + (if a in ms[i] then [ms[i][a]] else [])
  {
    assert ms[..i + 1][..i] == ms[..i];
  }

  /** Every user's value of `a` is in the column of `a`. */
  lemma {:induction false} ColumnHas(ms: seq<map<string, real>>, a: string, j: nat)
    requires j < |ms| && a in ms[j]
    ensures ms[j][a] in Column(ms, a)
  {
    if j < |ms| - 1 {
      ColumnHas(ms[..|ms| - 1], a, j);
    }
  }

  /** The smallest value; `min` folded from the left. */
  function SeqMin(s: seq<real>): real
    requires s != []
  {
    if |s| == 1 then s[0]
    else
      var m := SeqMin(s[..|s| - 1]);
      if s[|s| - 1] < m then s[|s| - 1] else m
  }

  /** The smallest value is one of the values, and no value is smaller. */
  lemma {:induction false} SeqMinBounds(s: seq<real>)
    requires s != []
    ensures SeqMin(s) in s
    ensures forall i :: 0 <= i < |s| ==> SeqMin(s) <= s[i]
  {
    if |s| > 1 {
      var init := s[..|s| - 1];
      SeqMinBounds(init);
      assert forall i :: 0 <= i < |s| - 1 ==> s[i] == init[i];
      var k :| 0 <= k < |init| && init[k] == SeqMin(init);
      assert s[k] == SeqMin(init);
    }
  }

  /** The largest value; `max` folded from the left. */
  function SeqMax(s: seq<real>): real
    requires s != []
  {
    if |s| == 1 then s[0]
    else
      var m := SeqMax(s[..|s| - 1]);
      if s[|s| - 1] > m then s[|s| - 1] else m
  }

  /** The largest value is one of the values, and no value is larger. */
  lemma {:induction false} SeqMaxBounds(s: seq<real>)
    requires s != []
    ensures SeqMax(s) in s
    ensures forall i :: 0 <= i < |s| ==> s[i] <= SeqMax(s)
  {
    if |s| > 1 {
      var init := s[..|s| - 1];
      SeqMaxBounds(init);
      assert forall i :: 0 <= i < |s| - 1 ==> s[i] == init[i];
      var k :| 0 <= k < |init| && init[k] == SeqMax(init);
      assert s[k] == SeqMax(init);
    }
  }

  /** Extending a list by one value moves its extremes the way `min` and `max` do. */
  lemma SeqExtremesSnoc(s: seq<real>, v: real)
    requires s != []
    ensures SeqMax(s + [v]) == if v > SeqMax(s) then v else SeqMax(s)
    ensures SeqMin(s + [v]) == if v < SeqMin(s) then v else SeqMin(s)
  {
    assert (s + [v])[..|s|] == s;
  }

  /** Every non-excluded attribute of every user is an attribute of the first
      user (otherwise the lookup in the min/max dictionaries raises KeyError). */
  ghost predicate Conforming(ms: seq<map<string, real>>, excluded: set<string>)
    requires ms != []
  {
    forall k, a :: 0 <= k < |ms| && a in ms[k] && a !in excluded ==> a in ms[0]
  }

  /** Attribute `a` takes one value only: its range is empty. */
  ghost predicate Degenerate(ms: seq<map<string, real>>, a: string) {
    var c := Column(ms, a);
    c != [] && SeqMin(c) == SeqMax(c)
  }

  /** Every non-excluded attribute of `m` has values in `ms` and a non-empty range. */
  ghost predicate Normalizable(m: map<string, real>, ms: seq<map<string, real>>, excluded: set<string>) {
    forall a :: a in m && a !in excluded ==> Column(ms, a) != [] && !Degenerate(ms, a)
  }

  /** `(v - min) / (max - min)`. */
  function Scale(v: real, lo: real, hi: real): (r: real)
    requires lo != hi
    ensures r * (hi - lo) == v - lo
  {
    (v - lo) / (hi - lo)
  }

  /** A user's dictionary after normalisation against the population `ms`. */
  ghost function NormalizedAttrs(m: map<string, real>, ms: seq<map<string, real>>, excluded: set<string>): (r: map<string, real>)
    requires Normalizable(m, ms, excluded)
    ensures r.Keys == m.Keys
    ensures forall a :: a in m && a in excluded ==> r[a] == m[a]
  {
    map a | a in m :: if a in excluded then m[a] else Scale(m[a], SeqMin(Column(ms, a)), SeqMax(Column(ms, a)))
  }

  /** Scaling a value of [lo, hi] lands in [0, 1], at 0 exactly for lo and
      at 1 exactly for hi. */
  lemma ScaleBounds(v: real, lo: real, hi: real)
    requires lo <= v <= hi && lo < hi
    ensures 0.0 <= Scale(v, lo, hi) <= 1.0
    ensures Scale(v, lo, hi) == 0.0 <==> v == lo
    ensures Scale(v, lo, hi) == 1.0 <==> v == hi
  {
    var d := hi - lo;
    var n := (v - lo) / d;
    assert n * d == v - lo;
    if n < 0.0 { assert n * d < 0.0; }
    if n > 1.0 { assert (n - 1.0) * d > 0.0; }
    if n == 1.0 { assert v - lo == d; }
  }

  /** Scaling keeps the order of values, both ways. */
  lemma ScaleMonotone(v: real, w: real, lo: real, hi: real)
    requires lo < hi
    ensures v <= w <==> Scale(v, lo, hi) <= Scale(w, lo, hi)
  {
  }

  /** A user's value of `a` lies between the minimum and maximum of its column. */
  lemma InColumnRange(ms: seq<map<string, real>>, a: string, j: nat)
    requires j < |ms| && a in ms[j]
    ensures var c := Column(ms, a);
      c != [] && SeqMin(c) <= ms[j][a] <= SeqMax(c)
  {
    var c := Column(ms, a);
    ColumnHas(ms, a, j);
    SeqMinBounds(c);
    SeqMaxBounds(c);
    var k :| 0 <= k < |c| && c[k] == ms[j][a];
  }

  /** A normalised value lies in [0, 1]; it is 0 exactly for the minimum and 1
      exactly for the maximum of its attribute. */
  lemma NormalizedInRange(ms: seq<map<string, real>>, excluded: set<string>, j: nat, a: string)
    requires j < |ms| && a in ms[j] && a !in excluded
    requires Normalizable(ms[j], ms, excluded)
    ensures var c := Column(ms, a);
      var n := NormalizedAttrs(ms[j], ms, excluded)[a];
      && 0.0 <= n <= 1.0
      && (n == 0.0 <==> ms[j][a] == SeqMin(c))
      && (n == 1.0 <==> ms[j][a] == SeqMax(c))
  {
    var c := Column(ms, a);
    InColumnRange(ms, a, j);
    ScaleBounds(ms[j][a], SeqMin(c), SeqMax(c));
  }

  /** Normalisation keeps the order of an attribute's values, both ways. */
  lemma NormalizedPreservesOrder(ms: seq<map<string, real>>, excluded: set<string>, i: nat, j: nat, a: string)
    requires i < |ms| && j < |ms| && a in ms[i] && a in ms[j] && a !in excluded
    requires Normalizable(ms[i], ms, excluded) && Normalizable(ms[j], ms, excluded)
    ensures ms[i][a] <= ms[j][a] <==>
            NormalizedAttrs(ms[i], ms, excluded)[a] <= NormalizedAttrs(ms[j], ms, excluded)[a]
  {
    var c := Column(ms, a);
    InColumnRange(ms, a, i);
    ScaleMonotone(ms[i][a], ms[j][a], SeqMin(c), SeqMax(c));
  }

  /** A conforming population with no constant attribute in its first user can
      be normalised user by user. */
  lemma AllNormalizable(ms: seq<map<string, real>>, excluded: set<string>)
    requires ms != [] && Conforming(ms, excluded)
    requires forall a :: a in ms[0] && a !in excluded ==> !Degenerate(ms, a)
    ensures forall k :: 0 <= k < |ms| ==> Normalizable(ms[k], ms, excluded)
  {
    forall k, a | 0 <= k < |ms| && a in ms[k] && a !in excluded
      ensures Column(ms, a) != []
    {
      ColumnHas(ms, a, k);
    }
  }

  /** `set(excluded_attributes)`. */
  function ExcludedSet(excludedAttributes: seq<string>): (r: set<string>)
    ensures forall a :: a in r <==> a in excludedAttributes
  {
    set a | a in excludedAttributes
  }

  /** User `j` is the first user with a non-excluded attribute `a` that the
      first user lacks. */
  ghost predicate FirstExtraKey(ms: seq<map<string, real>>, excluded: set<string>, j: int, a: string)
    requires ms != []
  {
    && 0 <= j < |ms| && a in ms[j] && a !in excluded && a !in ms[0]
    && forall k, b :: 0 <= k < j && b in ms[k] && b !in excluded ==> b in ms[0]
  }

  /** `lo` and `hi` hold, for every non-excluded attribute with a value in
      `ms`, the minimum and the maximum of its values, and nothing else. */
  ghost predicate ExtremesOf(ms: seq<map<string, real>>, excluded: set<string>, lo: map<string, real>, hi: map<string, real>) {
    && lo.Keys == hi.Keys
    && (forall a :: a in hi <==> a !in excluded && Column(ms, a) != [])
    && forall a :: a in hi ==>
         Column(ms, a) != [] && hi[a] == SeqMax(Column(ms, a)) && lo[a] == SeqMin(Column(ms, a))
  }

  // ---------------------------------------------------------------------------
  // normalize_users, first pass

  /** The inner loop of the first pass, over one user's items: fold the user's
      non-excluded values into `lo` and `hi`. A non-excluded key outside
      `keys` (the first user's keys) raises KeyError. */
  method AccumulateExtremes(m: map<string, real>, keys: set<string>, excluded: set<string>,
                            lo: map<string, real>, hi: map<string, real>, ghost past: seq<map<string, real>>)
    returns (r: Result<(map<string, real>, map<string, real>)>)
    requires ExtremesOf(past, excluded, lo, hi)
    ensures r.Failure? <==> exists a :: a in m && a !in excluded && a !in keys
    ensures r.Failure? ==> exists a :: a in m && a !in excluded && a !in keys && r.error == KeyError(a)
    ensures r.Success? ==> ExtremesOf(past + [m], excluded, r.value.0, r.value.1)
  {
    ghost var ms := past + [m];
    assert ms[..|past|] == past;
    var lo', hi' := lo, hi;
    var pending := m.Keys;
    forall a ensures Seen(past, m, pending, a) == Column(past, a) {
      assert Column(past, a) + [] == Column(past, a);
    }
    while pending != {}
      invariant pending <= m.Keys
      invariant forall a :: a in m && a !in pending && a !in excluded ==> a in keys
      invariant forall a :: a in lo' <==> a in hi'
      invariant forall a :: a in hi' <==> a !in excluded && Seen(past, m, pending, a) != []
      invariant forall a :: a in hi' ==>
        && Seen(past, m, pending, a) != []
        && hi'[a] == SeqMax(Seen(past, m, pending, a)) && lo'[a] == SeqMin(Seen(past, m, pending, a))
      decreases pending
    {
      var a :| a in pending;
      ghost var oldHi := hi';
      if a !in excluded {
        if a !in keys {
          return Failure(KeyError(a));
        }
        var value := m[a];
        ghost var before := Seen(past, m, pending, a);
        assert Seen(past, m, pending - {a}, a) == before + [value];
        if a in hi' {
          SeqExtremesSnoc(before, value);
          hi' := hi'[a := if value > hi'[a] then value else hi'[a]];
          lo' := lo'[a := if value < lo'[a] then value else lo'[a]];
        } else {
          assert before == [];
          assert before + [value] == [value];
          hi' := hi'[a := value];
          lo' := lo'[a := value];
        }
        assert hi'[a] == SeqMax(Seen(past, m, pending - {a}, a));
        assert lo'[a] == SeqMin(Seen(past, m, pending - {a}, a));
      } else {
        assert a !in hi';
      }
      forall b | b in hi'
        ensures && Seen(past, m, pending - {a}, b) != []
                && hi'[b] == SeqMax(Seen(past, m, pending - {a}, b))
                && lo'[b] == SeqMin(Seen(past, m, pending - {a}, b))
      {
        if b != a {
          assert Seen(past, m, pending - {a}, b) == Seen(past, m, pending, b);
        }
      }
      forall b | b != a
        ensures Seen(past, m, pending - {a}, b) == Seen(past, m, pending, b)
        ensures b in hi' <==> b in oldHi
      {
      }
      pending := pending - {a};
    }
    forall a ensures Seen(past, m, {}, a) == Column(ms, a) {
      ColumnSnoc(ms, |past|, a);
    }
    assert lo'.Keys == hi'.Keys;
    return Success((lo', hi'));
  }

  /** The values of `a` met so far while folding `m` into the extremes of
      `past`: those of `past`, and that of `m` once its key `a` is no longer
      pending. */
  ghost function Seen(past: seq<map<string, real>>, m: map<string, real>, pending: set<string>, a: string): seq<real> {
    Column(past, a) + (if a in m && a !in pending then [m[a]] else [])
  }

  /** The first pass: the extremes of every non-excluded attribute over all
      users, or KeyError for the first user with an attribute the first user
      lacks. */
  method FindExtremes(users: seq<User>, excluded: set<string>)
    returns (r: Result<(map<string, real>, map<string, real>)>)
    requires |users| > 0
    ensures var ms := Snapshot(users);
      && (r.Success? <==> Conforming(ms, excluded))
      && (r.Failure? ==> exists j, a :: FirstExtraKey(ms, excluded, j, a) && r.error == KeyError(a))
      && (r.Success? ==> ExtremesOf(ms, excluded, r.value.0, r.value.1))
  {
    ghost var ms := Snapshot(users);
    var keys := users[0].attrs.Keys;
    var lo: map<string, real> := map[];
    var hi: map<string, real> := map[];
    var i := 0;
    while i < |users|
      invariant 0 <= i <= |users|
      invariant forall k, a :: 0 <= k < i && a in ms[k] && a !in excluded ==> a in keys
      invariant ExtremesOf(ms[..i], excluded, lo, hi)
    {
      var step := AccumulateExtremes(users[i].attrs, keys, excluded, lo, hi, ms[..i]);
      if step.Failure? {
        ghost var a :| a in ms[i] && a !in excluded && a !in keys && step.error == KeyError(a);
        assert FirstExtraKey(ms, excluded, i, a);
        return Failure(step.error);
      }
      assert ms[..i] + [ms[i]] == ms[..i + 1];
      lo, hi := step.value.0, step.value.1;
      i := i + 1;
    }
    assert ms[..i] == ms;
    return Success((lo, hi));
  }

  // ---------------------------------------------------------------------------
  // normalize_users, second pass

  /** The inner loop of the second pass: rewrite each non-excluded value of
      one user as `(value - min) / (max - min)`. A constant attribute raises
      ZeroDivisionError (`ok` false) with the items visited before it already
      rewritten. */
  method RewriteUser(user: User, excluded: set<string>, lo: map<string, real>, hi: map<string, real>,
                     ghost ms: seq<map<string, real>>)
    returns (ok: bool)
    requires ExtremesOf(ms, excluded, lo, hi)
    requires forall a :: a in user.attrs && a !in excluded ==> Column(ms, a) != []
    modifies user
    ensures user.attrs.Keys == old(user.attrs).Keys
    ensures ok <==> forall a :: a in old(user.attrs) && a !in excluded ==> !Degenerate(ms, a)
    ensures ok ==> Normalizable(old(user.attrs), ms, excluded)
                   && user.attrs == NormalizedAttrs(old(user.attrs), ms, excluded)
    ensures !ok ==> forall a :: a in old(user.attrs) ==>
      || user.attrs[a] == old(user.attrs)[a]
      || (&& a !in excluded && Column(ms, a) != [] && !Degenerate(ms, a)
          && user.attrs[a] == Scale(old(user.attrs)[a], SeqMin(Column(ms, a)), SeqMax(Column(ms, a))))
  {
    ghost var m := user.attrs;
    var pending := user.attrs.Keys;
    while pending != {}
      invariant pending <= m.Keys
      invariant user.attrs.Keys == m.Keys
      invariant forall a :: a in m && (a in pending || a in excluded) ==> user.attrs[a] == m[a]
      invariant forall a :: a in m && a !in pending && a !in excluded ==>
        && Column(ms, a) != [] && !Degenerate(ms, a)
        && user.attrs[a] == Scale(m[a], SeqMin(Column(ms, a)), SeqMax(Column(ms, a)))
      decreases pending
    {
      var a :| a in pending;
      if a !in excluded {
        if hi[a] == lo[a] {
          return false;
        }
        user.attrs := user.attrs[a := (user.attrs[a] - lo[a]) / (hi[a] - lo[a])];
      }
      pending := pending - {a};
    }
    assert user.attrs == NormalizedAttrs(m, ms, excluded);
    return true;
  }

  // ---------------------------------------------------------------------------
  // normalize_users

  /** normalize_users. With ms the users' dictionaries on entry:
      an empty list raises IndexError; a user with a non-excluded attribute the
      first user lacks raises KeyError before anything is written; a constant
      attribute raises ZeroDivisionError while the first user is being
      rewritten; otherwise every user is rewritten to NormalizedAttrs and the
      same list is returned. */
  method NormalizeUsers(users: seq<User>, excludedAttributes: seq<string>) returns (r: Result<seq<User>>)
    requires Distinct(users)
    modifies users
    ensures |users| == 0 <==> r == Failure(IndexError)
    ensures var ms := old(Snapshot(users));
      var excluded := ExcludedSet(excludedAttributes);
      |users| > 0 && !Conforming(ms, excluded) ==>
        && (exists j, a :: FirstExtraKey(ms, excluded, j, a) && r == Failure(KeyError(a)))
        && forall k :: 0 <= k < |users| ==> users[k].attrs == ms[k]
    ensures var ms := old(Snapshot(users));
      var excluded := ExcludedSet(excludedAttributes);
      |users| > 0 && Conforming(ms, excluded) && (exists a :: a in ms[0] && a !in excluded && Degenerate(ms, a)) ==>
        && r == Failure(ZeroDivisionError)
        && (forall k :: 1 <= k < |users| ==> users[k].attrs == ms[k])
        && users[0].attrs.Keys == ms[0].Keys
        && forall a :: a in ms[0] ==>
             || users[0].attrs[a] == ms[0][a]
             || (&& a !in excluded && Column(ms, a) != [] && !Degenerate(ms, a)
                 && users[0].attrs[a] == Scale(ms[0][a], SeqMin(Column(ms, a)), SeqMax(Column(ms, a))))
    ensures var ms := old(Snapshot(users));
      var excluded := ExcludedSet(excludedAttributes);
      |users| > 0 && Conforming(ms, excluded) && (forall a :: a in ms[0] && a !in excluded ==> !Degenerate(ms, a)) ==>
        && r == Success(users)
        && forall k :: 0 <= k < |users| ==>
             Normalizable(ms[k], ms, excluded) && users[k].attrs == NormalizedAttrs(ms[k], ms, excluded)
  {
    var excluded := ExcludedSet(excludedAttributes);
    if |users| == 0 {
      return Failure(IndexError);
    }
    ghost var ms := Snapshot(users);
    var extremes := FindExtremes(users, excluded);
    if extremes.Failure? {
      return Failure(extremes.error);
    }
    var lo, hi := extremes.value.0, extremes.value.1;
    var i := 0;
    while i < |users|
      invariant 0 <= i <= |users|
      invariant i > 0 ==> forall a :: a in ms[0] && a !in excluded ==> !Degenerate(ms, a)
      invariant forall k :: 0 <= k < i ==>
        Normalizable(ms[k], ms, excluded) && users[k].attrs == NormalizedAttrs(ms[k], ms, excluded)
      invariant forall k :: i <= k < |users| ==> users[k].attrs == ms[k]
    {
      forall a | a in ms[i] && a !in excluded ensures Column(ms, a) != [] {
        ColumnHas(ms, a, i);
      }
      var ok := RewriteUser(users[i], excluded, lo, hi, ms);
      if !ok {
        return Failure(ZeroDivisionError);
      }
      i := i + 1;
    }
    return Success(users);
  }
}
