/** vectorize_users (analysis/analysis_utilities.py): turn a list of user
    dictionaries into feature vectors, in a fixed attribute order, and a
    parallel list of labels. */
module Vectorizer {
  import opened Wrappers
  import opened Users

  /** The vector columns: `attributes` without the label, in their given order. */
  function Schema(attributes: seq<string>, labelName: string): (s: seq<string>)
    ensures forall a :: a in s <==> a in attributes && a != labelName
    ensures |s| <= |attributes|
  {
    if attributes == [] then []
    else (if attributes[0] != labelName then [attributes[0]] else []) + Schema(attributes[1..], labelName)
  }

  /** The columns of a concatenation are the columns of its parts, in order. */
  lemma {:induction false} SchemaConcat(a: seq<string>, b: seq<string>, labelName: string)
    ensures Schema(a + b, labelName) == Schema(a, labelName) + Schema(b, labelName)
  {
    if a != [] {
      assert (a + b)[0] == a[0] && (a + b)[1..] == a[1..] + b;
      SchemaConcat(a[1..], b, labelName);
    } else {
      assert a + b == b;
    }
  }

  /** Attributes without the label are the columns as given, order and
      repetitions included. */
  lemma {:induction false} SchemaNoLabel(attributes: seq<string>, labelName: string)
    requires labelName !in attributes
    ensures Schema(attributes, labelName) == attributes
  {
    if attributes != [] {
      SchemaNoLabel(attributes[1..], labelName);
    }
  }

  /** The label is dropped wherever it occurs; the columns around it keep
      their order. */
  lemma SchemaDropsLabel(a: seq<string>, b: seq<string>, labelName: string)
    ensures Schema(a + [labelName] + b, labelName) == Schema(a + b, labelName)
  {
    SchemaConcat(a + [labelName], b, labelName);
    SchemaConcat(a, [labelName], labelName);
    SchemaConcat(a, b, labelName);
  }

  /** `[user[a] for a in attributes if a != label_name]`. */
  function UserVector(m: map<string, real>, attributes: seq<string>, labelName: string): (v: seq<real>)
    requires forall a :: a in attributes && a != labelName ==> a in m
    ensures |v| == |Schema(attributes, labelName)|
  {
    if attributes == [] then []
    else (if attributes[0] != labelName then [m[attributes[0]]] else []) + UserVector(m, attributes[1..], labelName)
  }

  /** Column `j` of a user's vector is the user's value of schema attribute `j`. */
  lemma {:induction false} UserVectorAligned(m: map<string, real>, attributes: seq<string>, labelName: string)
    requires forall a :: a in attributes && a != labelName ==> a in m
    ensures var s := Schema(attributes, labelName);
      var v := UserVector(m, attributes, labelName);
      |v| == |s| && forall j :: 0 <= j < |s| ==> v[j] == m[s[j]]
  {
    if attributes != [] {
      UserVectorAligned(m, attributes[1..], labelName);
    }
  }

  /** The keys one user is read at, in the order they are read. */
  function ReadKeys(attributes: seq<string>, labelName: string): seq<string> {
    Schema(attributes, labelName) + [labelName]
  }

  /** The first of `keys` missing from `m`, if any. */
  function FirstAbsent(m: map<string, real>, keys: seq<string>): (r: Option<string>)
    ensures r.None? <==> forall k :: k in keys ==> k in m
    ensures r.Some? ==> exists i :: 0 <= i < |keys| && keys[i] == r.value && r.value !in m
                                    && forall j :: 0 <= j < i ==> keys[j] in m
  {
    if keys == [] then None
    else if keys[0] !in m then Some(keys[0])
    else
      var r := FirstAbsent(m, keys[1..]);
      if r.Some? then
        ghost var i :| 0 <= i < |keys| - 1 && keys[1..][i] == r.value && r.value !in m
                       && forall j :: 0 <= j < i ==> keys[1..][j] in m;
        assert keys[i + 1] == r.value;
        r
      else r
  }

  /** vectorize_users: on success X[i][j] is users[i]'s value of schema
      attribute j and y[i] its label, one entry per user in input order; the
      first user missing a key it reads raises KeyError for the first such key. */
  method VectorizeUsers(users: seq<User>, attributes: seq<string>, labelName: string)
    returns (r: Result<(seq<seq<real>>, seq<real>)>)
    ensures var keys := ReadKeys(attributes, labelName);
      r.Success? <==> forall i :: 0 <= i < |users| ==> FirstAbsent(users[i].attrs, keys).None?
    ensures var keys := ReadKeys(attributes, labelName);
      r.Failure? ==>
        exists i :: && 0 <= i < |users|
                    && (forall j :: 0 <= j < i ==> FirstAbsent(users[j].attrs, keys).None?)
                    && FirstAbsent(users[i].attrs, keys).Some?
                    && r.error == KeyError(FirstAbsent(users[i].attrs, keys).value)
    ensures r.Success? ==>
      var s := Schema(attributes, labelName);
      var X := r.value.0;
      var y := r.value.1;
      && |X| == |users| && |y| == |users|
      && forall i :: 0 <= i < |users| ==>
           && labelName in users[i].attrs
           && y[i] == users[i].attrs[labelName]
           && |X[i]| == |s|
           && forall j :: 0 <= j < |s| ==> s[j] in users[i].attrs && X[i][j] == users[i].attrs[s[j]]
  {
    var keys := ReadKeys(attributes, labelName);
    ghost var s := Schema(attributes, labelName);
    var vectors: seq<seq<real>> := [];
    var labels: seq<real> := [];
    var i := 0;
    while i < |users|
      invariant 0 <= i <= |users|
      invariant |vectors| == i && |labels| == i
      invariant forall k :: 0 <= k < i ==> FirstAbsent(users[k].attrs, keys).None?
      invariant forall k :: 0 <= k < i ==>
        && labels[k] == users[k].attrs[labelName]
        && |vectors[k]| == |s|
        && forall j :: 0 <= j < |s| ==> vectors[k][j] == users[k].attrs[s[j]]
    {
      var user := users[i];
      var missing := FirstAbsent(user.attrs, keys);
      if missing.Some? {
        return Failure(KeyError(missing.value));
      }
      UserVectorAligned(user.attrs, attributes, labelName);
      vectors := vectors + [UserVector(user.attrs, attributes, labelName)];
      labels := labels + [user.attrs[labelName]];
      i := i + 1;
    }
    return Success((vectors, labels));
  }
}
