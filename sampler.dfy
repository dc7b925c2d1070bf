/** stratified_boolean_sample (analysis/analysis_utilities.py): balance the
    users labelled 1 and 0 by drawing, without replacement, as many users of
    the larger class as the smaller class has. The result holds references to
    the input users; nothing is copied or changed. */
module Sampler {
  import opened Wrappers
  import opened Users

  function Min(a: nat, b: nat): nat { if a < b then a else b }

  /** Every user has the label key. */
  predicate AllLabelled(users: seq<User>, labelName: string)
    reads users
  {
    forall i :: 0 <= i < |users| ==> labelName in users[i].attrs
  }

  /** The number of users whose label equals `value`. */
  function Count(users: seq<User>, labelName: string, value: real): nat
    reads users
    requires AllLabelled(users, labelName)
  {
    if users == [] then 0
    else (if users[0].attrs[labelName] == value then 1 else 0) + Count(users[1..], labelName, value)
  }

  lemma {:induction false} CountConcat(a: seq<User>, b: seq<User>, labelName: string, value: real)
    requires AllLabelled(a, labelName) && AllLabelled(b, labelName)
    ensures AllLabelled(a + b, labelName)
    ensures Count(a + b, labelName, value) == Count(a, labelName, value) + Count(b, labelName, value)
  {
    if a != [] {
      assert (a + b)[1..] == a[1..] + b;
      CountConcat(a[1..], b, labelName, value);
    } else {
      assert a + b == b;
    }
  }

  /** In a list whose labels all equal `v`, `v` is counted for every user and
      any other value for none. */
  lemma {:induction false} CountUniform(s: seq<User>, labelName: string, v: real, w: real)
    requires forall u :: u in s ==> labelName in u.attrs && u.attrs[labelName] == v
    ensures AllLabelled(s, labelName)
    ensures Count(s, labelName, w) == if w == v then |s| else 0
  {
    if s != [] {
      assert forall u :: u in s[1..] ==> u in s;
      CountUniform(s[1..], labelName, v, w);
    }
  }

  /** `[user for user in users if user[label_name] == value]`. */
  function WithLabel(users: seq<User>, labelName: string, value: real): (r: seq<User>)
    reads users
    requires AllLabelled(users, labelName)
    ensures |r| == Count(users, labelName, value)
    ensures multiset(r) <= multiset(users)
  {
    if users == [] then []
    else
      assert users == [users[0]] + users[1..];
      (if users[0].attrs[labelName] == value then [users[0]] else []) + WithLabel(users[1..], labelName, value)
  }

  lemma {:induction false} WithLabelMembers(users: seq<User>, labelName: string, value: real)
    requires AllLabelled(users, labelName)
    ensures forall u :: u in WithLabel(users, labelName, value) ==>
      u in users && labelName in u.attrs && u.attrs[labelName] == value
  {
    if users != [] {
      WithLabelMembers(users[1..], labelName, value);
    }
  }

  /** Filtering a concatenation filters each part and keeps them in order. */
  lemma {:induction false} WithLabelConcat(a: seq<User>, b: seq<User>, labelName: string, value: real)
    requires AllLabelled(a, labelName) && AllLabelled(b, labelName)
    ensures AllLabelled(a + b, labelName)
    ensures WithLabel(a + b, labelName, value) == WithLabel(a, labelName, value) + WithLabel(b, labelName, value)
  {
    if a != [] {
      assert (a + b)[0] == a[0] && (a + b)[1..] == a[1..] + b;
      WithLabelConcat(a[1..], b, labelName, value);
    } else {
      assert a + b == b;
    }
  }

  /** A single user is kept exactly when its label equals `value`. */
  lemma WithLabelSingleton(u: User, labelName: string, value: real)
    requires labelName in u.attrs
    ensures AllLabelled([u], labelName)
    ensures WithLabel([u], labelName, value) == if u.attrs[labelName] == value then [u] else []
  {
  }

  /** The users labelled 1 and those labelled 0 are distinct positions of the input. */
  lemma {:induction false} ClassesDisjoint(users: seq<User>, labelName: string)
    requires AllLabelled(users, labelName)
    ensures multiset(WithLabel(users, labelName, 1.0)) + multiset(WithLabel(users, labelName, 0.0))
            <= multiset(users)
  {
    if users != [] {
      ClassesDisjoint(users[1..], labelName);
      assert users == [users[0]] + users[1..];
    }
  }

  /** random.sample(pool, k): `k` picks without replacement; each pick takes the
      element at `rand(step) % |remaining pool|` out of the remaining pool. The
      random source is a parameter that decides which positions are drawn; no
      distribution over draws is stated. */
  function RandomSample<T>(pool: seq<T>, k: nat, rand: nat -> nat): (r: seq<T>)
    requires k <= |pool|
    decreases k
    ensures |r| == k
    ensures multiset(r) <= multiset(pool)
  {
    if k == 0 then []
    else
      var j := rand(0) % |pool|;
      var rest := pool[..j] + pool[j + 1..];
      assert pool == pool[..j] + [pool[j]] + pool[j + 1..];
      [pool[j]] + RandomSample(rest, k - 1, n => rand(n + 1))
  }

  /** stratified_boolean_sample; KeyError when some user has no label. */
  function StratifiedBooleanSample(users: seq<User>, labelName: string, rand: nat -> nat): (r: Result<seq<User>>)
    reads users
    ensures r.Failure? <==> !AllLabelled(users, labelName)
    ensures r.Failure? ==> r.error == KeyError(labelName)
  {
    if !AllLabelled(users, labelName) then Failure(KeyError(labelName))
    else
      var positives := WithLabel(users, labelName, 1.0);
      var negatives := WithLabel(users, labelName, 0.0);
      if |positives| < |negatives| then
        Success(positives + RandomSample(negatives, |positives|, rand))
      else
        Success(RandomSample(positives, |negatives|, rand) + negatives)
  }

  /** A list of users labelled 1 followed by users labelled 0 counts each part. */
  lemma CountTwoClasses(a: seq<User>, b: seq<User>, labelName: string)
    requires forall u :: u in a ==> labelName in u.attrs && u.attrs[labelName] == 1.0
    requires forall u :: u in b ==> labelName in u.attrs && u.attrs[labelName] == 0.0
    ensures AllLabelled(a + b, labelName)
    ensures forall i :: 0 <= i < |a + b| ==>
      (a + b)[i].attrs[labelName] == 1.0 || (a + b)[i].attrs[labelName] == 0.0
    ensures Count(a + b, labelName, 1.0) == |a|
    ensures Count(a + b, labelName, 0.0) == |b|
  {
    CountUniform(a, labelName, 1.0, 1.0);
    CountUniform(a, labelName, 1.0, 0.0);
    CountUniform(b, labelName, 0.0, 1.0);
    CountUniform(b, labelName, 0.0, 0.0);
    CountConcat(a, b, labelName, 1.0);
    CountConcat(a, b, labelName, 0.0);
    forall i | 0 <= i < |a + b|
      ensures (a + b)[i].attrs[labelName] == 1.0 || (a + b)[i].attrs[labelName] == 0.0
    {
      if i < |a| { assert (a + b)[i] in a; } else { assert (a + b)[i] in b; }
    }
  }

  /** Every element of a sample from `pool` is in `pool`. */
  lemma SampleMembers<T>(pool: seq<T>, k: nat, rand: nat -> nat)
    requires k <= |pool|
    ensures forall x :: x in RandomSample(pool, k, rand) ==> x in pool
  {
    var r := RandomSample(pool, k, rand);
    forall x | x in r ensures x in pool {
      assert x in multiset(r);
    }
  }

  /** With p users labelled 1 and n labelled 0, the sample holds exactly
      min(p, n) of each, and no user with another label. */
  lemma StratifiedSampleBalanced(users: seq<User>, labelName: string, rand: nat -> nat)
    requires AllLabelled(users, labelName)
    ensures var r := StratifiedBooleanSample(users, labelName, rand).value;
      var m := Min(Count(users, labelName, 1.0), Count(users, labelName, 0.0));
      && AllLabelled(r, labelName)
      && (forall i :: 0 <= i < |r| ==> r[i].attrs[labelName] == 1.0 || r[i].attrs[labelName] == 0.0)
      && Count(r, labelName, 1.0) == m
      && Count(r, labelName, 0.0) == m
      && |r| == 2 * m
  {
    var positives := WithLabel(users, labelName, 1.0);
    var negatives := WithLabel(users, labelName, 0.0);
    WithLabelMembers(users, labelName, 1.0);
    WithLabelMembers(users, labelName, 0.0);
    if |positives| < |negatives| {
      SampleMembers(negatives, |positives|, rand);
      CountTwoClasses(positives, RandomSample(negatives, |positives|, rand), labelName);
    } else {
      SampleMembers(positives, |negatives|, rand);
      CountTwoClasses(RandomSample(positives, |negatives|, rand), negatives, labelName);
    }
  }

  /** Every sampled user is an input user, no input position is used twice, and
      the smaller class comes whole and in input order: first when it is the
      positives (p < n), last otherwise (p >= n, ties included). */
  lemma StratifiedSampleProvenance(users: seq<User>, labelName: string, rand: nat -> nat)
    requires AllLabelled(users, labelName)
    ensures var r := StratifiedBooleanSample(users, labelName, rand).value;
      var positives := WithLabel(users, labelName, 1.0);
      var negatives := WithLabel(users, labelName, 0.0);
      && multiset(r) <= multiset(users)
      && (|positives| < |negatives| ==> r[..|positives|] == positives)
      && (|positives| >= |negatives| ==> r[|r| - |negatives|..] == negatives)
  {
    ClassesDisjoint(users, labelName);
  }
}
