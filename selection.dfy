/**
 * The enrollment view's course selection (App.jsx, the `enroll` view):
 * the fixed course catalogue and the `toggle` handler that adds or removes
 * one course id from the locally held `selected` list.
 */
module Selection {
  import opened Wrappers

  type CourseId = string

  /** The most courses a selection may hold. */
  const MaxCourses: nat := 5

  datatype Course = Course(id: CourseId, name: string)

  /** The static catalogue the enrollment view offers, in display order. */
  const Catalogue: seq<Course> := [
    Course("CS101", "Data Structures"),
    Course("CS102", "Algorithms"),
    Course("CS103", "Operating Systems"),
    Course("CS104", "Databases"),
    Course("CS105", "Computer Networks")
  ]

  /** The ids of the catalogue's courses. */
  function CatalogueIds(): (ids: set<CourseId>)
    ensures |ids| == |Catalogue| == MaxCourses
    ensures forall c :: c in Catalogue ==> c.id in ids
  {
    var ids := set c | c in Catalogue :: c.id;
    var listed := {"CS101", "CS102", "CS103", "CS104", "CS105"};
    assert |listed| == 5 by {
      assert "CS101" != "CS102" by { assert "CS101"[4] != "CS102"[4]; }
    }
    assert ids == listed by {
      assert ids <= listed;
      assert Catalogue[0] in Catalogue && Catalogue[1] in Catalogue && Catalogue[2] in Catalogue;
      assert Catalogue[3] in Catalogue && Catalogue[4] in Catalogue;
    }
    ids
  }

  /** The catalogue's ids, listed. */
  lemma CatalogueListed()
    ensures CatalogueIds() == {"CS101", "CS102", "CS103", "CS104", "CS105"}
  {
    assert Catalogue[0] in Catalogue && Catalogue[1] in Catalogue && Catalogue[2] in Catalogue;
    assert Catalogue[3] in Catalogue && Catalogue[4] in Catalogue;
  }

  /** Every id in the selection is one of the catalogue's: the only ids its checkboxes send. */
  predicate FromCatalogue(s: seq<CourseId>) {
    forall x :: x in s ==> x in CatalogueIds()
  }

  /** No course id occurs twice. */
  predicate NoDup(s: seq<CourseId>) {
    forall i, j :: 0 <= i < j < |s| ==> s[i] != s[j]
  }

  /** What a selection may look like: at most MaxCourses ids, none repeated. */
  predicate SelectionOk(s: seq<CourseId>) {
    |s| <= MaxCourses && NoDup(s)
  }

  /** `selected.filter(x => x !== id)`: every occurrence of `x` dropped. */
  function Without(s: seq<CourseId>, x: CourseId): (r: seq<CourseId>)
    ensures forall y :: y in r <==> y in s && y != x
    ensures x in s ==> |r| < |s|
    ensures x !in s ==> |r| == |s|
  {
    if s == [] then []
    else
      assert s == [s[0]] + s[1..];
      if s[0] == x then Without(s[1..], x)
      else [s[0]] + Without(s[1..], x)
  }

  /**
   * `toggle(id)`: a selected id is removed, an unselected one is appended
   * while fewer than MaxCourses are selected; otherwise the selection is
   * refused (None, the "Max 5 courses!" alert) and stays as it was.
   */
  function Toggle(selected: seq<CourseId>, id: CourseId): (r: Option<seq<CourseId>>)
    ensures r.None? <==> id !in selected && |selected| >= MaxCourses
    ensures r.Some? ==> (id in r.value <==> id !in selected)
    ensures r.Some? ==> forall y :: y != id ==> (y in r.value <==> y in selected)
    ensures r.Some? && id !in selected ==> r.value == selected + [id]
    ensures r.Some? && |selected| <= MaxCourses ==> |r.value| <= MaxCourses
  {
    if id in selected then Some(Without(selected, id))
    else if |selected| < MaxCourses then Some(selected + [id])
    else None
  }

  /** The filter drops every occurrence of the id and keeps every occurrence of every other id. */
  lemma {:induction false} WithoutMultiset(s: seq<CourseId>, x: CourseId)
    ensures multiset(Without(s, x)) == multiset(s)[x := 0]
  {
    if s != [] {
      assert s == [s[0]] + s[1..];
      WithoutMultiset(s[1..], x);
    }
  }

  /** Filtering an id that does not occur changes nothing. */
  lemma {:induction false} WithoutAbsent(s: seq<CourseId>, x: CourseId)
    requires x !in s
    ensures Without(s, x) == s
  {
    if s != [] {
      WithoutAbsent(s[1..], x);
    }
  }

  /** Filtering distributes over concatenation: the survivors keep their relative order. */
  lemma {:induction false} WithoutConcat(a: seq<CourseId>, b: seq<CourseId>, x: CourseId)
    ensures Without(a + b, x) == Without(a, x) + Without(b, x)
  {
    if a == [] {
      assert a + b == b;
    } else {
      assert (a + b)[1..] == a[1..] + b;
      WithoutConcat(a[1..], b, x);
    }
  }

  /**
   * In a duplicate-free selection, removing the id at position i leaves
   * exactly the elements before and after it, in their original order.
   */
  lemma {:induction false} WithoutUnique(s: seq<CourseId>, x: CourseId, i: nat)
    requires NoDup(s) && i < |s| && s[i] == x
    ensures Without(s, x) == s[..i] + s[i + 1..]
  {
    if i == 0 {
      assert x !in s[1..] by {
        forall k | 0 <= k < |s[1..]| ensures s[1..][k] != x {
          assert s[1..][k] == s[k + 1];
        }
      }
      WithoutAbsent(s[1..], x);
    } else {
      assert s[0] != x;
      assert NoDup(s[1..]) by {
        forall p, q | 0 <= p < q < |s[1..]| ensures s[1..][p] != s[1..][q] {
          assert s[1..][p] == s[p + 1] && s[1..][q] == s[q + 1];
        }
      }
      WithoutUnique(s[1..], x, i - 1);
      assert s[..i] == [s[0]] + s[1..][..i - 1];
      assert s[i + 1..] == s[1..][i..];
    }
  }

  /** Filtering keeps a selection duplicate-free. */
  lemma {:induction false} WithoutKeepsNoDup(s: seq<CourseId>, x: CourseId)
    requires NoDup(s)
    ensures NoDup(Without(s, x))
  {
    if s != [] {
      assert NoDup(s[1..]) by {
        forall p, q | 0 <= p < q < |s[1..]| ensures s[1..][p] != s[1..][q] {
          assert s[1..][p] == s[p + 1] && s[1..][q] == s[q + 1];
        }
      }
      WithoutKeepsNoDup(s[1..], x);
      if s[0] != x {
        var w := Without(s[1..], x);
        assert s[0] !in s[1..] by {
          forall k | 0 <= k < |s[1..]| ensures s[1..][k] != s[0] {
            assert s[1..][k] == s[k + 1];
          }
        }
        assert s[0] !in w;
        var r := [s[0]] + w;
        forall p, q | 0 <= p < q < |r| ensures r[p] != r[q] {
          if p == 0 {
            assert r[q] == w[q - 1];
          } else {
            assert r[p] == w[p - 1] && r[q] == w[q - 1];
          }
        }
      }
    }
  }

  /** Toggling keeps a well-formed selection well-formed: bounded and duplicate-free. */
  lemma ToggleKeepsSelectionOk(selected: seq<CourseId>, id: CourseId)
    requires SelectionOk(selected)
    ensures Toggle(selected, id).None? || SelectionOk(Toggle(selected, id).value)
  {
    if id in selected {
      WithoutKeepsNoDup(selected, id);
    } else if |selected| < MaxCourses {
      var r := selected + [id];
      forall p, q | 0 <= p < q < |r| ensures r[p] != r[q] {
        if q == |selected| {
          assert r[p] == selected[p];
        } else {
          assert r[p] == selected[p] && r[q] == selected[q];
        }
      }
    }
  }

  /** Toggling a selected id removes that one entry; the rest keep their order. */
  lemma ToggleRemovesInPlace(selected: seq<CourseId>, i: nat)
    requires NoDup(selected) && i < |selected|
    ensures Toggle(selected, selected[i]) == Some(selected[..i] + selected[i + 1..])
  {
    WithoutUnique(selected, selected[i], i);
  }

  /** Checking a box and unchecking it again restores the selection. */
  lemma ToggleTwiceRestores(selected: seq<CourseId>, id: CourseId)
    requires id !in selected && |selected| < MaxCourses
    ensures Toggle(selected, id).Some?
    ensures Toggle(Toggle(selected, id).value, id) == Some(selected)
  {
    var added := selected + [id];
    assert Toggle(selected, id) == Some(added);
    assert id in added;
    WithoutConcat(selected, [id], id);
    WithoutAbsent(selected, id);
    assert Without([id], id) == [] by { assert [id][1..] == []; }
    assert Without(added, id) == selected;
  }

  /** A duplicate-free sequence has as many distinct elements as entries. */
  lemma {:induction false} DistinctCount(s: seq<CourseId>)
    requires NoDup(s)
    ensures |set x | x in s| == |s|
  {
    if s != [] {
      assert NoDup(s[1..]) by {
        forall p, q | 0 <= p < q < |s[1..]| ensures s[1..][p] != s[1..][q] {
          assert s[1..][p] == s[p + 1] && s[1..][q] == s[q + 1];
        }
      }
      DistinctCount(s[1..]);
      assert s[0] !in s[1..] by {
        forall k | 0 <= k < |s[1..]| ensures s[1..][k] != s[0] {
          assert s[1..][k] == s[k + 1];
        }
      }
      assert (set x | x in s) == (set x | x in s[1..]) + {s[0]};
    }
  }

  /**
   * The catalogue has exactly MaxCourses courses, so the refusal branch of
   * `toggle` never fires for a duplicate-free selection of catalogue ids.
   */
  lemma ToggleNeverRefusedOnCatalogue(selected: seq<CourseId>, id: CourseId)
    requires NoDup(selected) && FromCatalogue(selected)
    requires id in CatalogueIds()
    ensures Toggle(selected, id).Some?
    ensures FromCatalogue(Toggle(selected, id).value)
  {
    if id !in selected {
      DistinctCount(selected);
      var chosen := set x | x in selected;
      assert chosen + {id} <= CatalogueIds();
      assert |chosen + {id}| == |selected| + 1;
      assert |chosen + {id}| <= |CatalogueIds()| by {
        SubsetCard(chosen + {id}, CatalogueIds());
      }
    }
  }

  /** A subset is no larger than its superset. */
  lemma SubsetCard(a: set<CourseId>, b: set<CourseId>)
    requires a <= b
    ensures |a| <= |b|
  {
    assert b == a + (b - a);
  }
}
