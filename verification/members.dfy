/**
  Guild members and roles as the handlers see them, and the id lists the
  bot keeps in `config.json` (moderation roles, staff roles).
*/
module Members {
  import opened Wrappers
  import opened Config

  // ---------------------------------------------------------------------
  // Roles and members
  // ---------------------------------------------------------------------

  /** A role and its place in the hierarchy. */
  datatype Role = Role(id: int, position: int)

  /** discord.py's `a < b` on roles: lower position, or the same position
      and a younger (larger) id. */
  predicate Below(a: Role, b: Role) {
    a.position < b.position || (a.position == b.position && a.id > b.id)
  }

  /** `a >= b` on roles, which discord.py defines as `not a < b`. */
  predicate AtLeast(a: Role, b: Role) {
    !Below(a, b)
  }

  /** The role order is total: of two different roles exactly one ranks
      lower. */
  lemma RoleOrderTotal(a: Role, b: Role)
    requires a.id != b.id
    ensures Below(a, b) <==> !Below(b, a)
  {
  }

  /** A member: ids of the roles held, the highest role, and the names of
      the permission flags that are set. Members compare by id. */
  datatype Member = Member(id: int, name: string, discriminator: string,
                           roles: seq<int>, topRole: Role, perms: set<string>)

  // ---------------------------------------------------------------------
  // Stored id lists
  // ---------------------------------------------------------------------

  /** The stored value as a list of ids; `None` when it is some other JSON
      value, on which `x in value` raises in Python. */
  function AsIds(j: Json): Option<seq<int>> {
    if j.JIds? then Some(j.ids) else None
  }

  predicate NoDuplicates(l: seq<int>) {
    forall i, j :: 0 <= i < j < |l| ==> l[i] != l[j]
  }

  /** `if x not in l: l.append(x)`. */
  function AddIfAbsent(l: seq<int>, x: int): (r: seq<int>)
    ensures x in r
    ensures forall y :: y in r <==> y in l || y == x
    ensures NoDuplicates(l) ==> NoDuplicates(r)
    ensures x in l ==> r == l
    ensures x !in l ==> r == l + [x]
  {
    if x in l then l else l + [x]
  }

  /** Where `l.remove(x)` removes: the first occurrence of `x`. */
  function IndexOf(l: seq<int>, x: int): (i: nat)
    requires x in l
    ensures i < |l| && l[i] == x
    ensures forall k :: 0 <= k < i ==> l[k] != x
    decreases |l|
  {
    if l[0] == x then 0 else 1 + IndexOf(l[1..], x)
  }

  /** `l.remove(x)`: drops the first occurrence of `x`. */
  function RemoveFirst(l: seq<int>, x: int): (r: seq<int>)
    requires x in l
    ensures |r| == |l| - 1
    ensures multiset(r) == multiset(l) - multiset{x}
    ensures r == l[..IndexOf(l, x)] + l[IndexOf(l, x) + 1..]
  {
    var i := IndexOf(l, x);
    assert l == l[..i] + [x] + l[i + 1..];
    l[..i] + l[i + 1..]
  }

  /** Dropping one position of a list without duplicates leaves a list
      without duplicates. */
  lemma SkipNoDuplicates(l: seq<int>, i: nat)
    requires i < |l| && NoDuplicates(l)
    ensures NoDuplicates(l[..i] + l[i + 1..])
  {
    var r := l[..i] + l[i + 1..];
    forall a, b | 0 <= a < b < |r| ensures r[a] != r[b] {
      var a' := if a < i then a else a + 1;
      var b' := if b < i then b else b + 1;
      assert r[a] == l[a'] && r[b] == l[b'];
    }
  }

  /** Dropping one position of a list without duplicates leaves exactly
      the other elements. */
  lemma SkipMembers(l: seq<int>, i: nat)
    requires i < |l| && NoDuplicates(l)
    ensures forall y :: y in l[..i] + l[i + 1..] <==> y in l && y != l[i]
  {
    var r := l[..i] + l[i + 1..];
    forall y ensures y in r <==> y in l && y != l[i] {
      if y in r {
        var k :| 0 <= k < |r| && r[k] == y;
        var k' := if k < i then k else k + 1;
        assert r[k] == l[k'] && k' != i;
      }
      if y in l && y != l[i] {
        var k :| 0 <= k < |l| && l[k] == y;
        if k < i { assert r[k] == y; } else { assert r[k - 1] == y; }
      }
    }
  }

  /** Removing an id from a list without duplicates leaves exactly the
      other ids, still without duplicates. */
  lemma RemoveFirstNoDuplicates(l: seq<int>, x: int)
    requires x in l && NoDuplicates(l)
    ensures NoDuplicates(RemoveFirst(l, x))
    ensures forall y :: y in RemoveFirst(l, x) <==> y in l && y != x
  {
    var i := IndexOf(l, x);
    SkipNoDuplicates(l, i);
    SkipMembers(l, i);
  }

  /** Adding an absent id and then removing it gives the list back. */
  lemma AddThenRemove(l: seq<int>, x: int)
    requires x !in l
    ensures RemoveFirst(AddIfAbsent(l, x), x) == l
  {
    var i := IndexOf(l + [x], x);
    assert (l + [x])[..i] == l;
  }
}
