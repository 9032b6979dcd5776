/**
  The two stored entities and the row-level queries the handlers run on them.
  A table is a sequence of rows kept in identifier order, which is the order
  every `order_by(Question.id)` query delivers.
*/
module Models {
  import opened Wrappers

  /** A question row; its formatted shape has exactly these five fields. */
  datatype Question = Question(id: nat, question: string, answer: string, category: int, difficulty: int)

  /** A category row; `name` is the column the source calls `type`. */
  datatype Category = Category(id: nat, name: string)

  /** Rows in strictly increasing identifier order (so identifiers are unique). */
  predicate SortedById(qs: seq<Question>)
  {
    forall i, j :: 0 <= i < j < |qs| ==> qs[i].id < qs[j].id
  }

  predicate CategoriesSortedById(cs: seq<Category>)
  {
    forall i, j :: 0 <= i < j < |cs| ==> cs[i].id < cs[j].id
  }

  /** A `filter(...)` query: the rows that satisfy `keep`, in table order. */
  function Select(qs: seq<Question>, keep: Question -> bool): (r: seq<Question>)
    ensures |r| <= |qs|
    ensures forall q :: q in r <==> q in qs && keep(q)
    ensures SortedById(qs) ==> SortedById(r)
    decreases |qs|
  {
    if qs == [] then []
    else
      var rest := Select(qs[1..], keep);
      assert forall q :: q in rest ==> q in qs[1..];
      assert SortedById(qs) ==> forall q :: q in qs[1..] ==> qs[0].id < q.id;
      if keep(qs[0]) then [qs[0]] + rest else rest
  }

  lemma SortedTail(a: seq<Question>)
    requires SortedById(a) && a != []
    ensures SortedById(a[1..])
  {
    forall i, j | 0 <= i < j < |a| - 1
      ensures a[1..][i].id < a[1..][j].id
    {
      assert a[1..][i] == a[i + 1] && a[1..][j] == a[j + 1];
    }
  }

  /** A filter that keeps no row of the table returns nothing. */
  lemma {:induction false} SelectNoneKept(qs: seq<Question>, keep: Question -> bool)
    requires forall q :: q in qs ==> !keep(q)
    ensures Select(qs, keep) == []
    decreases |qs|
  {
    if qs != [] {
      assert forall q :: q in qs[1..] ==> q in qs;
      SelectNoneKept(qs[1..], keep);
    }
  }

  /** Two id-sorted sequences with the same members are the same sequence. */
  lemma {:induction false} SortedSameMembersEqual(a: seq<Question>, b: seq<Question>)
    requires SortedById(a) && SortedById(b)
    requires forall q :: q in a <==> q in b
    ensures a == b
    decreases |a|
  {
    if a == [] {
      assert |b| == 0 by {
        assert forall i :: 0 <= i < |b| ==> b[i] in a;
      }
    } else {
      assert a[0] in b;
      assert b != [];
      assert b[0] in a;
      var k :| 0 <= k < |b| && b[k] == a[0];
      var m :| 0 <= m < |a| && a[m] == b[0];
      assert a[0].id <= a[m].id;
      assert b[0].id <= b[k].id;
      assert k == 0;
      assert a == [a[0]] + a[1..];
      assert b == [b[0]] + b[1..];
      forall q
        ensures q in a[1..] <==> q in b[1..]
      {
        if q in a[1..] {
          var i :| 1 <= i < |a| && a[i] == q;
          assert q != a[0] by { assert a[0].id < a[i].id; }
          assert q in b;
          var j :| 0 <= j < |b| && b[j] == q;
          assert j != 0;
          assert b[1..][j - 1] == q;
        }
        if q in b[1..] {
          var i :| 1 <= i < |b| && b[i] == q;
          assert q != b[0] by { assert b[0].id < b[i].id; }
          assert q in a;
          var j :| 0 <= j < |a| && a[j] == q;
          assert j != 0;
          assert a[1..][j - 1] == q;
        }
      }
      SortedTail(a);
      SortedTail(b);
      SortedSameMembersEqual(a[1..], b[1..]);
    }
  }

  /** `Question.query.get(id)`: the row whose primary key is `id`, if any. */
  function FindQuestion(qs: seq<Question>, id: nat): (r: Option<Question>)
    ensures r.Some? ==> r.value in qs && r.value.id == id
    ensures r.None? ==> forall q :: q in qs ==> q.id != id
    decreases |qs|
  {
    if qs == [] then None
    else if qs[0].id == id then Some(qs[0])
    else FindQuestion(qs[1..], id)
  }

  /** `Category.query.get(id)`: the category whose primary key is `id`, if any. */
  function FindCategory(cs: seq<Category>, id: nat): (r: Option<Category>)
    ensures r.Some? ==> r.value in cs && r.value.id == id
    ensures r.None? ==> forall c :: c in cs ==> c.id != id
    decreases |cs|
  {
    if cs == [] then None
    else if cs[0].id == id then Some(cs[0])
    else FindCategory(cs[1..], id)
  }

  /** The table after the row with primary key `id` is deleted. */
  function WithoutId(qs: seq<Question>, id: nat): seq<Question>
  {
    Select(qs, (q: Question) => q.id != id)
  }

  /**
    Deleting the row at position `k` of an id-sorted table removes exactly that
    row: the rows before and after it stay, in the same order.
  */
  lemma WithoutIdRemovesOneRow(qs: seq<Question>, k: nat)
    requires SortedById(qs) && k < |qs|
    ensures WithoutId(qs, qs[k].id) == qs[..k] + qs[k + 1..]
    ensures |WithoutId(qs, qs[k].id)| == |qs| - 1
  {
    var r := WithoutId(qs, qs[k].id);
    var e := qs[..k] + qs[k + 1..];
    assert SortedById(e) by {
      forall i, j | 0 <= i < j < |e|
        ensures e[i].id < e[j].id
      {
        var i' := if i < k then i else i + 1;
        var j' := if j < k then j else j + 1;
        assert e[i] == qs[i'] && e[j] == qs[j'];
      }
    }
    forall q
      ensures q in r <==> q in e
    {
      if q in e {
        var i :| 0 <= i < |e| && e[i] == q;
        var i' := if i < k then i else i + 1;
        assert q == qs[i'] && i' != k;
        assert q.id != qs[k].id by {
          if i' < k { assert qs[i'].id < qs[k].id; } else { assert qs[k].id < qs[i'].id; }
        }
      }
      if q in qs && q.id != qs[k].id {
        var i :| 0 <= i < |qs| && qs[i] == q;
        assert i != k;
        if i < k { assert q == e[i]; } else { assert q == e[i - 1]; }
      }
    }
    SortedSameMembersEqual(r, e);
  }
}
