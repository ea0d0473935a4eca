/** Lists, as the linked structures use them. */
module Lists {
  import opened Store

  /** The k-th element, or none past either end. */
  function At<T>(ids: seq<T>, k: int): Option<T> {
    if 0 <= k < |ids| then Some(ids[k]) else None
  }

  ghost predicate NoRepeats<T>(ids: seq<T>) {
    forall i, j | 0 <= i < j < |ids| :: ids[i] != ids[j]
  }

  /** The list without its k-th element. */
  function Without<T>(ids: seq<T>, k: nat): seq<T>
    requires k < |ids|
  {
    ids[..k] + ids[k + 1..]
  }

  /** Where an element is. */
  function IndexOf<T(==)>(ids: seq<T>, x: T): (k: nat)
    requires x in ids
    ensures k < |ids| && ids[k] == x
  {
    if ids[0] == x then 0 else 1 + IndexOf(ids[1..], x)
  }

  lemma WithoutNoRepeats<T>(ids: seq<T>, k: nat)
    requires NoRepeats(ids) && k < |ids|
    ensures NoRepeats(Without(ids, k)) && forall x :: x in Without(ids, k) <==> x in ids && x != ids[k]
  {
    var ids' := Without(ids, k);
    assert forall i | 0 <= i < |ids'| :: ids'[i] == ids[if i < k then i else i + 1];
    forall x | x in ids && x != ids[k]
      ensures x in ids'
    {
      var i :| 0 <= i < |ids| && ids[i] == x;
      assert ids'[if i < k then i else i - 1] == x;
    }
  }

  lemma Associative<T>(x: seq<T>, y: seq<T>, z: seq<T>)
    ensures x + (y + z) == x + y + z
  {
  }

  lemma TailOfConcat<T>(a: seq<T>, b: seq<T>)
    requires a != []
    ensures (a + b)[0] == a[0] && (a + b)[1..] == a[1..] + b
  {
  }
}
