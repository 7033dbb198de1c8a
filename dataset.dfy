/** The small fixed dataset of test1 and the result both filters give on it. */
module SmallDataset {
  import opened Students
  import opened Filtering
  import opened ParallelFilter

  function Ivanov(): Student {
    Student("Иванов Иван", "A", [SessionResult(1, "Математика", 5), SessionResult(1, "Физика", 4), SessionResult(2, "История", 3)])
  }
  function Petrova(): Student {
    Student("Петрова Анна", "A", [SessionResult(1, "Математика", 4), SessionResult(1, "Физика", 4), SessionResult(2, "История", 5)])
  }
  function Sidorov(): Student {
    Student("Сидоров Алексей", "B", [SessionResult(1, "Математика", 5), SessionResult(1, "Физика", 5), SessionResult(2, "История", 5)])
  }
  function Kuznetsova(): Student {
    Student("Кузнецова Ольга", "A", [SessionResult(1, "Математика", 5), SessionResult(1, "Физика", 5), SessionResult(2, "История", 5)])
  }
  function Pupkin(): Student {
    Student("Пупкин Антон", "A", [SessionResult(1, "Математика", 3), SessionResult(1, "Физика", 2), SessionResult(2, "История", 4)])
  }

  /** The five students of test1, in their listed order. */
  function SmallStudents(): seq<Student> {
    [Ivanov(), Petrova(), Sidorov(), Kuznetsova(), Pupkin()]
  }

  /**
   * Group "A", semester 1 selects students 0, 1 and 3: Sidorov is in group
   * B, and Pupkin has grades 3 and 2 in semester 1. Ivanov's grade 3 is in
   * semester 2 and does not count.
   */
  lemma SmallDatasetResult()
    ensures Filter(SmallStudents(), "A", 1) == [Ivanov(), Petrova(), Kuznetsova()]
  {
    var s := SmallStudents();
    assert IsScholarship(Ivanov(), "A", 1) && IsScholarship(Petrova(), "A", 1);
    assert !IsScholarship(Sidorov(), "A", 1) && IsScholarship(Kuznetsova(), "A", 1);
    assert Fails(Pupkin().sessions[0], 1);
    assert s[..4][..3] == s[..3] && s[..3][..2] == s[..2] && s[..2][..1] == s[..1] && s[..1][..0] == [];
    assert Filter(s[..1], "A", 1) == [Ivanov()];
    assert Filter(s[..2], "A", 1) == [Ivanov(), Petrova()];
    assert Filter(s[..3], "A", 1) == [Ivanov(), Petrova()];
    assert Filter(s[..4], "A", 1) == [Ivanov(), Petrova(), Kuznetsova()];
    assert s[..5] == s;
  }

  /**
   * test1 without its timing and printing: both filters run on the fixed
   * dataset, for any thread count, and agree on students 0, 1 and 3.
   */
  method RunSmallDataset(threadCount: int) returns (sequential: seq<Student>, parallel: seq<Student>)
    requires threadCount >= 1
    ensures sequential == parallel == [Ivanov(), Petrova(), Kuznetsova()]
  {
    var students := SmallStudents();
    sequential := ProcessSequential(students, "A", 1);
    parallel := ProcessParallel(students, "A", 1, threadCount);
    SmallDatasetResult();
  }
}
