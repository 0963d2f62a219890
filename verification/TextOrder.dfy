/** Strings as sequences of UTF-16 code units, with the order of the `<` operator (lexicographic). */
module TextOrder {
  type CodeUnit = x: int | 0 <= x < 0x1_0000
  type Text = seq<CodeUnit>

  predicate Less(a: Text, b: Text) {
    b != [] && (a == [] || a[0] < b[0] || (a[0] == b[0] && Less(a[1..], b[1..])))
  }

  /** The two texts agree up to position k, where a ends or has the smaller code unit. */
  predicate SmallerAt(a: Text, b: Text, k: nat) {
    && k < |b| && k <= |a| && (forall i :: 0 <= i < k ==> a[i] == b[i])
    && (k == |a| || a[k] < b[k])
  }

  /** The order is lexicographic: by the first difference, and a proper prefix comes first. */
  lemma {:induction false} LessIsLexicographic(a: Text, b: Text)
    ensures Less(a, b) <==> exists k: nat :: SmallerAt(a, b, k)
  {
    if a == [] || b == [] || a[0] != b[0] {
      assert Less(a, b) ==> SmallerAt(a, b, 0);
    } else {
      LessIsLexicographic(a[1..], b[1..]);
      if k: nat :| SmallerAt(a[1..], b[1..], k) {
        assert SmallerAt(a, b, k + 1);
      }
      if k: nat :| SmallerAt(a, b, k) {
        assert SmallerAt(a[1..], b[1..], k - 1);
      }
    }
  }

  lemma {:induction false} LessIsTotal(a: Text, b: Text)
    ensures Less(a, b) || a == b || Less(b, a)
    ensures !(Less(a, b) && Less(b, a)) && !Less(a, a)
  {
    if a != [] && b != [] {
      LessIsTotal(a[1..], b[1..]);
      if a != b && a[0] == b[0] {
        assert a == [a[0]] + a[1..] && b == [b[0]] + b[1..];
      }
    }
    if a != [] {
      LessIsTotal(a[1..], a[1..]);
    }
  }

  lemma {:induction false} LessIsTransitive(a: Text, b: Text, c: Text)
    requires Less(a, b) && Less(b, c)
    ensures Less(a, c)
  {
    if a != [] && a[0] == b[0] == c[0] {
      LessIsTransitive(a[1..], b[1..], c[1..]);
    }
  }

  ghost predicate IsLowest(x: Text, ids: set<Text>) {
    x in ids && forall y :: y in ids && y != x ==> Less(x, y)
  }

  lemma {:induction false} LowestExists(ids: set<Text>)
    requires ids != {}
    ensures exists x :: IsLowest(x, ids)
  {
    var x :| x in ids;
    var rest := ids - {x};
    assert ids == rest + {x};
    if rest == {} {
      assert IsLowest(x, ids);
    } else {
      LowestExists(rest);
      var y :| IsLowest(y, rest);
      LessIsTotal(x, y);
      if Less(y, x) {
        assert IsLowest(y, ids);
      } else {
        forall z | z in rest && z != y
          ensures Less(x, z)
        {
          LessIsTransitive(x, y, z);
        }
        assert IsLowest(x, ids);
      }
    }
  }

  lemma LowestIsUnique(x: Text, y: Text, ids: set<Text>)
    requires IsLowest(x, ids) && IsLowest(y, ids)
    ensures x == y
  {
    LessIsTotal(x, y);
  }

  /** The lowest of a non-empty set of ids. */
  ghost function Lowest(ids: set<Text>): (x: Text)
    requires ids != {}
    ensures IsLowest(x, ids)
  {
    LowestExists(ids);
    var x :| IsLowest(x, ids);
    x
  }

  lemma LowerOf(best: Text, id: Text, ids: set<Text>)
    requires IsLowest(best, ids) && id !in ids
    ensures IsLowest(if Less(best, id) then best else id, ids + {id})
  {
    LessIsTotal(best, id);
    if !Less(best, id) {
      forall y | y in ids && y != best
        ensures Less(id, y)
      {
        LessIsTransitive(id, best, y);
      }
    }
  }

  /** A reduce that picks the lowest. */
  method LowestOf(ids: set<Text>) returns (best: Text)
    requires ids != {}
    ensures forall id :: IsLowest(id, ids) <==> id == best
  {
    best :| best in ids;
    var todo := ids - {best};
    while todo != {}
      invariant todo <= ids && IsLowest(best, ids - todo)
      decreases todo
    {
      var id :| id in todo;
      LowerOf(best, id, ids - todo);
      best := if Less(best, id) then best else id;
      assert ids - (todo - {id}) == (ids - todo) + {id};
      todo := todo - {id};
    }
    assert ids - todo == ids;
    forall id | IsLowest(id, ids)
      ensures id == best
    {
      LowestIsUnique(id, best, ids);
    }
  }
}
