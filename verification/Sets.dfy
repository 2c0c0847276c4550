/** Finite sets: picking members and counting them. */
module Sets {
  ghost function Pick<T>(s: set<T>): (x: T)
    requires s != {}
    ensures x in s
  {
    var x :| x in s; x
  }

  lemma SubsetCard<T>(a: set<T>, b: set<T>)
    requires a <= b
    ensures |a| <= |b|
  {
    assert b == a + (b - a);
  }

  lemma AddOne<T>(all: set<T>, part: set<T>, x: T)
    requires x !in all
    ensures |(all + {x}) * part| == |all * part| + if x in part then 1 else 0
  {
    if x in part {
      assert (all + {x}) * part == all * part + {x};
    } else {
      assert (all + {x}) * part == all * part;
    }
  }

  lemma RemoveOne<T>(wanted: set<T>, rest: set<T>, x: T)
    requires x in rest
    ensures |wanted - (rest - {x})| == |wanted - rest| + if x in wanted then 1 else 0
  {
    if x in wanted {
      assert wanted - (rest - {x}) == wanted - rest + {x};
    } else {
      assert wanted - (rest - {x}) == wanted - rest;
    }
  }
}
