/**
 * The black-belt honour roll (components/GraduationReport.tsx): the adult
 * black belts, longest-standing student first.
 */
module GraduationReport {
  import opened Types
  import opened Seqs

  /** The filter: an Adult belt named `Preta`. */
  predicate IsAdultBlackBelt(s: Student) {
    s.belt.name == "Preta" && s.belt.beltType == Adult
  }

  /** The comparator `a.startDate - b.startDate`, read as "no later than". */
  function EarlierStart(a: Student, b: Student): bool {
    a.startDate <= b.startDate
  }

  /** `blackBelts`: filtered, then sorted by start date with a stable sort. */
  function BlackBelts(students: seq<Student>): (r: seq<Student>)
    ensures |r| <= |students|
    ensures forall s :: s in r <==> s in students && IsAdultBlackBelt(s)
  {
    var kept := Filter(students, IsAdultBlackBelt);
    var r := SortBy(kept, EarlierStart);
    assert forall s :: s in r <==> s in kept by {
      forall s ensures s in r <==> s in kept {
        assert s in r <==> s in multiset(r);
      }
    }
    assert |r| == |multiset(r)| == |multiset(kept)| == |kept|;
    r
  }

  /**
   * The roll lists exactly the adult black belts, each as often as in the
   * student list, ordered by start date.
   */
  lemma BlackBeltsRoll(students: seq<Student>)
    ensures var r := BlackBelts(students);
      && multiset(r) == multiset(Filter(students, IsAdultBlackBelt))
      && (forall s :: s in r <==> s in students && IsAdultBlackBelt(s))
      && (forall i, j :: 0 <= i < j < |r| ==> r[i].startDate <= r[j].startDate)
  {
    var kept := Filter(students, IsAdultBlackBelt);
    assert TotalPreorder(EarlierStart);
    SortBySorted(kept, EarlierStart);
    var r := BlackBelts(students);
    forall s ensures s in r <==> s in kept {
      assert s in r <==> s in multiset(r);
    }
    forall i, j | 0 <= i < j < |r| ensures r[i].startDate <= r[j].startDate {
      assert EarlierStart(r[i], r[j]);
    }
  }

  /** A Kid belt, or any other Adult rank (Coral and Vermelha included), never makes the roll. */
  lemma OnlyAdultPretaListed(students: seq<Student>, s: Student)
    requires s.belt.beltType == Kid || s.belt.name != "Preta"
    ensures s !in BlackBelts(students)
  {
    BlackBeltsRoll(students);
  }

  /** The roll is no longer than the student list. */
  lemma BlackBeltsBounded(students: seq<Student>)
    ensures |BlackBelts(students)| <= |students|
  {
    var kept := Filter(students, IsAdultBlackBelt);
    assert |multiset(BlackBelts(students))| == |multiset(kept)|;
  }
}
