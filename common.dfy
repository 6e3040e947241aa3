/** Shared vocabulary of the model: failure values, Python list indexing,
    and facts about ascending index lists. */
module Common {

  datatype Option<+T> = None | Some(value: T)

  /** The ways a call of the modelled code can fail. The first is Python's
      IndexError; the others are the `assert` statements of Models.py. */
  datatype Error =
    | IndexOutOfRange     // a list index outside the document range
    | MissingDates        // cluster with add_date and no date source
    | LengthsDoNotMatch   // cluster with add_date and a date source of the wrong length
    | NotClustered        // get_cluster_keywords before a clustering exists
    | NotAValidCluster    // get_cluster_keywords for a label with no members

  datatype Result<+T> = Ok(value: T) | Err(error: Error)

  /** The result of a call that returns nothing but may fail. */
  datatype Outcome = Pass | Fail(error: Error)

  /** A bag of words: (term id, count) pairs. */
  type Bow = seq<(nat, nat)>

  /** A weighted sparse vector: (term id, weight) pairs. */
  type Sparse = seq<(nat, real)>

  /** The position a Python list index `index` denotes in a list of
      `length` elements: negative indices count from the end. */
  function PyIndex(index: int, length: nat): (r: Option<nat>)
    ensures r.Some? <==> -(length as int) <= index < length
    ensures r.Some? ==> r.value < length
    ensures r.Some? && index >= 0 ==> r.value == index
    ensures r.Some? && index < 0 ==> r.value == length + index
  {
    if 0 <= index < length then Some(index)
    else if -(length as int) <= index < 0 then Some(length + index)
    else None
  }

  /** `range(n)` as a list. */
  function Range(n: nat): seq<nat>
  {
    seq(n, k requires 0 <= k < n => k)
  }

  ghost predicate StrictlyAscending(s: seq<nat>) {
    forall i, j :: 0 <= i < j < |s| ==> s[i] < s[j]
  }

  ghost predicate NonDecreasing(s: seq<nat>) {
    forall i, j :: 0 <= i < j < |s| ==> s[i] <= s[j]
  }

  /** Appending an element above all others keeps a list strictly ascending. */
  lemma AscendingSnoc(s: seq<nat>, x: nat)
    requires StrictlyAscending(s)
    requires forall y :: y in s ==> y < x
    ensures StrictlyAscending(s + [x])
  {
    forall i, j | 0 <= i < j < |s| + 1
      ensures (s + [x])[i] < (s + [x])[j]
    {
      if j == |s| {
        assert s[i] in s;
      }
    }
  }

  /** The tail of a strictly ascending list holds every element but the head. */
  lemma AscendingTail(a: seq<nat>, x: nat)
    requires StrictlyAscending(a) && a != []
    ensures x in a[1..] <==> x in a && x != a[0]
  {
    if x in a && x != a[0] {
      var i :| 0 <= i < |a| && a[i] == x;
      assert a[1..][i - 1] == x;
    }
  }

  lemma NonEmptyHasHead<T>(s: seq<T>)
    ensures s != [] ==> s[0] in s
  {
  }

  /** A strictly ascending list is determined by its elements. */
  lemma {:induction false} AscendingUnique(a: seq<nat>, b: seq<nat>)
    requires StrictlyAscending(a) && StrictlyAscending(b)
    requires forall x :: x in a <==> x in b
    ensures a == b
  {
    NonEmptyHasHead(b);
    if a != [] {
      assert a[0] in b;
      assert b != [];
      assert b[0] in a;
      assert a[0] == b[0];
      forall x
        ensures x in a[1..] <==> x in b[1..]
      {
        AscendingTail(a, x);
        AscendingTail(b, x);
      }
      AscendingUnique(a[1..], b[1..]);
      assert a == [a[0]] + a[1..];
      assert b == [b[0]] + b[1..];
    }
  }
}
