/**
 * A JavaScript `Set` of connections, modelled as the sequence of its elements
 * in insertion order. `forEach` visits a `Set` in that order, and that order
 * fixes the order in which the server emits notifications.
 */
module MemberSets {
  import opened Wrappers
  import opened Envelopes

  /** No element occurs twice: the sequence is the contents of a `Set`. */
  predicate NoDup(s: seq<ConnId>) {
    forall i, j :: 0 <= i < j < |s| ==> s[i] != s[j]
  }

  /** `Set.prototype.add`: appends `x` unless it is already there, in which case
      nothing moves. */
  function Added(s: seq<ConnId>, x: ConnId): (r: seq<ConnId>)
    ensures |r| == if x in s then |s| else |s| + 1
    ensures r[..|s|] == s
    ensures forall y :: y in r <==> y in s || y == x
    ensures NoDup(s) ==> NoDup(r)
  {
    if x in s then s else s + [x]
  }

  /** Putting a fresh element in front keeps a sequence duplicate-free. */
  lemma NoDupCons(x: ConnId, s: seq<ConnId>)
    requires x !in s && NoDup(s)
    ensures NoDup([x] + s)
  {
    forall i, j | 0 <= i < j < |[x] + s| ensures ([x] + s)[i] != ([x] + s)[j] {
      if i == 0 {
        assert ([x] + s)[j] == s[j - 1];
      } else {
        assert ([x] + s)[i] == s[i - 1] && ([x] + s)[j] == s[j - 1];
      }
    }
  }

  /** `Set.prototype.delete`: drops `x` and keeps the others in their order. */
  function Removed(s: seq<ConnId>, x: ConnId): (r: seq<ConnId>)
    ensures |r| <= |s|
    ensures forall y :: y in r <==> y in s && y != x
    ensures x !in s ==> r == s
    ensures NoDup(s) ==> NoDup(r)
    ensures NoDup(s) && x in s ==> |r| == |s| - 1
  {
    if s == [] then []
    else if s[0] == x then Removed(s[1..], x)
    else
      var rest := Removed(s[1..], x);
      assert NoDup(s) ==> NoDup([s[0]] + rest) by {
        if NoDup(s) {
          forall k | 0 <= k < |s[1..]| ensures s[1..][k] != s[0] {
            assert s[1..][k] == s[k + 1];
          }
          NoDupCons(s[0], rest);
        }
      }
      [s[0]] + rest
  }

  /** The position of `x` in insertion order. */
  function IndexOf(s: seq<ConnId>, x: ConnId): (k: nat)
    requires x in s
    ensures k < |s| && s[k] == x
  {
    if s[0] == x then 0 else 1 + IndexOf(s[1..], x)
  }

  /** The tail of a duplicate-free sequence is duplicate-free and lacks the head. */
  lemma NoDupTail(s: seq<ConnId>)
    requires NoDup(s) && s != []
    ensures NoDup(s[1..]) && s[0] !in s[1..]
  {
    var t := s[1..];
    forall i, j | 0 <= i < j < |t| ensures t[i] != t[j] {
      assert t[i] == s[i + 1] && t[j] == s[j + 1];
    }
    forall k | 0 <= k < |t| ensures t[k] != s[0] {
      assert t[k] == s[k + 1];
    }
  }

  /** The elements of `sub` are elements of `s`, listed in the order `s` has them. */
  predicate InOrderOf(sub: seq<ConnId>, s: seq<ConnId>) {
    forall i, j :: 0 <= i < j < |sub| ==> sub[i] in s && sub[j] in s && IndexOf(s, sub[i]) < IndexOf(s, sub[j])
  }

  /** `Removed` keeps the remaining members in their insertion order. */
  lemma {:induction false} RemovedInOrder(s: seq<ConnId>, x: ConnId)
    requires NoDup(s)
    ensures forall i, j :: 0 <= i < j < |Removed(s, x)| ==>
      IndexOf(s, Removed(s, x)[i]) < IndexOf(s, Removed(s, x)[j])
  {
    if s != [] {
      var t := s[1..];
      NoDupTail(s);
      RemovedInOrder(t, x);
      var r, r' := Removed(s, x), Removed(t, x);
      if s[0] == x {
        assert r == r';
        forall i, j | 0 <= i < j < |r| ensures IndexOf(s, r[i]) < IndexOf(s, r[j]) {
          assert r[i] in t && r[j] in t;
        }
      } else {
        assert r == [s[0]] + r';
        forall i, j | 0 <= i < j < |r| ensures IndexOf(s, r[i]) < IndexOf(s, r[j]) {
          assert r[j] == r'[j - 1] && r[j] in t;
          if i > 0 {
            assert r[i] == r'[i - 1] && r[i] in t;
          }
        }
      }
    }
  }

  /** The members a `forEach` loop reaches: all of them, or all but `skip`
      (the loop body's `peer !== ws` test). */
  function Except(members: seq<ConnId>, skip: Option<ConnId>): (r: seq<ConnId>)
    ensures forall y :: y in r <==> y in members && Some(y) != skip
  {
    match skip
    case None => members
    case Some(x) => Removed(members, x)
  }

  /** Visiting one more member extends what `Removed` keeps by that member,
      unless it is the one removed. */
  lemma {:induction false} RemovedSnoc(s: seq<ConnId>, y: ConnId, x: ConnId)
    ensures Removed(s + [y], x) == Removed(s, x) + (if y == x then [] else [y])
  {
    if s == [] {
      assert [y][1..] == [];
    } else {
      assert (s + [y])[0] == s[0];
      assert (s + [y])[1..] == s[1..] + [y];
      RemovedSnoc(s[1..], y, x);
    }
  }

  /** The same, for the members a `forEach` loop reaches. */
  lemma ExceptSnoc(s: seq<ConnId>, y: ConnId, skip: Option<ConnId>)
    ensures Except(s + [y], skip) == Except(s, skip) + (if Some(y) == skip then [] else [y])
  {
    if skip.Some? {
      RemovedSnoc(s, y, skip.value);
    }
  }
}
