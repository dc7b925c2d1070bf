/** Binarizing, relabelling and removing one attribute in every user
    dictionary of a list, in place (analysis/analysis_utilities.py). A user
    object may occur more than once in the list; each occurrence is visited. */
module AttributeTransform {
  import opened Wrappers
  import opened Users

  // ---------------------------------------------------------------------------
  // binarize_attribute

  /** One dictionary after `user.update({attribute: int(bool(user[attribute]))})`. */
  function Binarized(m: map<string, real>, attribute: string): (r: map<string, real>)
    requires attribute in m
    ensures r.Keys == m.Keys
    ensures r[attribute] == 1.0 <==> m[attribute] != 0.0
    ensures r[attribute] == 0.0 <==> m[attribute] == 0.0
    ensures forall k :: k in m && k != attribute ==> r[k] == m[k]
  {
    m[attribute := if m[attribute] != 0.0 then 1.0 else 0.0]
  }

  /** Binarizing an already binarized attribute changes nothing. */
  lemma BinarizedIdempotent(m: map<string, real>, attribute: string)
    requires attribute in m
    ensures Binarized(Binarized(m, attribute), attribute) == Binarized(m, attribute)
  {
  }

  /** The index of the first dictionary lacking `key`, or the length when all have it. */
  function FirstMissing(ms: seq<map<string, real>>, key: string): (k: nat)
    ensures k <= |ms|
    ensures forall j :: 0 <= j < k ==> key in ms[j]
    ensures k < |ms| ==> key !in ms[k]
  {
    if ms == [] || key !in ms[0] then 0 else 1 + FirstMissing(ms[1..], key)
  }

  /** binarize_attribute: every user up to the first one lacking `attribute`
      is binarized; that user raises KeyError and the rest stay as they were. */
  method BinarizeAttribute(users: seq<User>, attribute: string) returns (outcome: Outcome)
    modifies users
    ensures var stop := FirstMissing(old(Snapshot(users)), attribute);
      && outcome == (if stop == |users| then Pass else Fail(KeyError(attribute)))
      && forall j :: 0 <= j < |users| ==>
           users[j].attrs == if users[j] in users[..stop]
                             then Binarized(old(users[j].attrs), attribute)
                             else old(users[j].attrs)
  {
    ghost var ms := Snapshot(users);
    var i := 0;
    while i < |users|
      invariant 0 <= i <= |users|
      invariant forall k :: 0 <= k < i ==> attribute in ms[k]
      invariant forall j :: 0 <= j < |users| ==>
        users[j].attrs == if users[j] in users[..i] then Binarized(ms[j], attribute) else ms[j]
    {
      var user := users[i];
      if attribute !in user.attrs {
        return Fail(KeyError(attribute));
      }
      user.attrs := user.attrs[attribute := if user.attrs[attribute] != 0.0 then 1.0 else 0.0];
      if user in users[..i] {
        BinarizedIdempotent(ms[i], attribute);
      }
      assert users[..i + 1] == users[..i] + [user];
      i := i + 1;
    }
    assert users[..i] == users;
    return Pass;
  }

  // ---------------------------------------------------------------------------
  // designate_attribute_as_label

  /** One dictionary after `user['label'] = user.pop(attribute)`. */
  function Relabeled(m: map<string, real>, attribute: string): (r: map<string, real>)
    requires attribute in m
    ensures r.Keys == (m.Keys - {attribute}) + {Label}
    ensures r[Label] == m[attribute]
    ensures forall k :: k in m && k != attribute && k != Label ==> r[k] == m[k]
  {
    (m - {attribute})[Label := m[attribute]]
  }

  /** Designating `label` itself as the label leaves the dictionary as it was. */
  lemma RelabeledLabelIsNoOp(m: map<string, real>)
    requires Label in m
    ensures Relabeled(m, Label) == m
  {
  }

  /** The user at position `j` can be relabelled: it has `attribute`, and it was
      not already relabelled at an earlier position (which removed `attribute`,
      unless `attribute` is the label itself). */
  predicate CanRelabel(users: seq<User>, ms: seq<map<string, real>>, attribute: string, j: nat)
    requires |ms| == |users| && j < |users|
  {
    attribute in ms[j] && (attribute == Label || users[j] !in users[..j])
  }

  /** The first position from `from` on where relabelling raises KeyError, or the length. */
  function RelabelStop(users: seq<User>, ms: seq<map<string, real>>, attribute: string, from: nat): (k: nat)
    requires |ms| == |users| && from <= |users|
    decreases |users| - from
    ensures from <= k <= |users|
    ensures forall j :: from <= j < k ==> attribute in ms[j] && CanRelabel(users, ms, attribute, j)
    ensures k < |users| ==> !CanRelabel(users, ms, attribute, k)
  {
    if from == |users| || !CanRelabel(users, ms, attribute, from) then from
    else RelabelStop(users, ms, attribute, from + 1)
  }

  /** designate_attribute_as_label: users are relabelled in order until one
      raises KeyError; those before it keep their new `label`. */
  method DesignateAttributeAsLabel(users: seq<User>, attribute: string) returns (outcome: Outcome)
    modifies users
    ensures var stop := RelabelStop(users, old(Snapshot(users)), attribute, 0);
      && outcome == (if stop == |users| then Pass else Fail(KeyError(attribute)))
      && forall j :: 0 <= j < |users| ==>
           users[j].attrs == if users[j] in users[..stop]
                             then Relabeled(old(users[j].attrs), attribute)
                             else old(users[j].attrs)
  {
    ghost var ms := Snapshot(users);
    var i := 0;
    while i < |users|
      invariant 0 <= i <= |users|
      invariant forall k :: 0 <= k < i ==> attribute in ms[k] && CanRelabel(users, ms, attribute, k)
      invariant forall j :: 0 <= j < |users| ==>
        users[j].attrs == if users[j] in users[..i] then Relabeled(ms[j], attribute) else ms[j]
    {
      var user := users[i];
      if attribute !in user.attrs {
        return Fail(KeyError(attribute));
      }
      var value := user.attrs[attribute];
      user.attrs := (user.attrs - {attribute})[Label := value];
      if user in users[..i] {
        RelabeledLabelIsNoOp(ms[i]);
      }
      assert users[..i + 1] == users[..i] + [user];
      i := i + 1;
    }
    assert users[..i] == users;
    return Pass;
  }

  // ---------------------------------------------------------------------------
  // remove_attribute

  /** remove_attribute: no user keeps `attribute`, every other entry is as it
      was, and a user without `attribute` is not an error. */
  method RemoveAttribute(users: seq<User>, attribute: string)
    modifies users
    ensures forall j :: 0 <= j < |users| ==>
      && attribute !in users[j].attrs
      && users[j].attrs.Keys == old(users[j].attrs).Keys - {attribute}
      && forall k :: k in users[j].attrs ==> users[j].attrs[k] == old(users[j].attrs)[k]
  {
    ghost var ms := Snapshot(users);
    var i := 0;
    while i < |users|
      invariant 0 <= i <= |users|
      invariant forall j :: 0 <= j < |users| ==>
        users[j].attrs == if users[j] in users[..i] then ms[j] - {attribute} else ms[j]
    {
      var user := users[i];
      user.attrs := user.attrs - {attribute};
      assert users[..i + 1] == users[..i] + [user];
      i := i + 1;
    }
    assert users[..i] == users;
  }
}
