/** A user dictionary (attribute name -> numeric value), shared by reference
    between the caller and the helpers that update it in place. */
module Users {

  /** The key under which a designated label is stored. */
  const Label: string := "label"

  /** One user dictionary. The helpers update `attrs` in place. */
  class User {
    var attrs: map<string, real>

    constructor (attrs: map<string, real>)
      ensures this.attrs == attrs
    {
      this.attrs := attrs;
    }
  }

  /** The dictionaries of a list of users, as values. */
  function Snapshot(users: seq<User>): (ms: seq<map<string, real>>)
    reads users
    ensures |ms| == |users|
    ensures forall i :: 0 <= i < |users| ==> ms[i] == users[i].attrs
  {
    seq(|users|, i reads users requires 0 <= i < |users| => users[i].attrs)
  }

  /** No user object occurs twice in the list. */
  ghost predicate Distinct(users: seq<User>) {
    forall i, j :: 0 <= i < j < |users| ==> users[i] != users[j]
  }
}
