/** The queries of exam-solutions/assignment1/student_marks.py over the name → marks dictionary. The dictionary
    is a sequence of entries in insertion order with distinct names; marks are exact reals. */
module StudentMarks {
  import opened Wrappers
  import opened Text
  import opened Numerals

  datatype Entry = Entry(name: string, marks: real)

  /** Dictionary keys are unique. */
  predicate DistinctNames(students: seq<Entry>)
  {
    forall i, j :: 0 <= i < j < |students| ==> students[i].name != students[j].name
  }

  /** `name in students`. */
  predicate HasName(students: seq<Entry>, name: string)
  {
    exists k :: 0 <= k < |students| && students[k].name == name
  }

  // ---------------------------------------------------------------- collect_student_data

  lemma HasNameTail(students: seq<Entry>, name: string)
    requires HasName(students, name) && students[0].name != name
    ensures HasName(students[1..], name)
  {
    var k :| 0 <= k < |students| && students[k].name == name;
    assert students[1..][k - 1] == students[k];
  }

  /** Where `name` sits in the dictionary. */
  function IndexOf(students: seq<Entry>, name: string): (i: nat)
    requires HasName(students, name)
    ensures i < |students| && students[i].name == name
  {
    if students[0].name == name then 0
    else
      HasNameTail(students, name);
      1 + IndexOf(students[1..], name)
  }

  /** `students[name] = marks`: an existing name keeps its place and takes the new marks, a new name is appended. */
  function Put(students: seq<Entry>, name: string, marks: real): (r: seq<Entry>)
    requires DistinctNames(students)
    ensures DistinctNames(r)
    ensures HasName(r, name)
    ensures |r| == if HasName(students, name) then |students| else |students| + 1
    ensures forall k :: 0 <= k < |students| ==> r[k].name == students[k].name
    ensures forall k :: 0 <= k < |r| ==> r[k].marks == (if r[k].name == name then marks else students[k].marks)
  {
    if HasName(students, name) then
      var i := IndexOf(students, name);
      var r := students[i := Entry(name, marks)];
      assert r[i].name == name;
      r
    else
      var r := students + [Entry(name, marks)];
      assert r[|students|].name == name;
      r
  }

  /** The marks of every accepted entry are in range. */
  const MinMarks := 0.0
  const MaxMarks := 100.0

  /** What one round of the input loop does. */
  datatype Entered =
    | EmptyName           // "Name cannot be empty. Please try again."
    | NotANumber          // `float(...)` raised ValueError
    | OutOfRange          // "Marks must be between 0 and 100. Please try again."
    | Stored(students: seq<Entry>)

  /** One attempt: the name is stripped and must not be empty, then the marks text is converted by `float`
      (which ignores surrounding whitespace) and must lie in 0..100; only then is the entry stored. */
  function Enter(students: seq<Entry>, rawName: string, rawMarks: string): (r: Entered)
    requires DistinctNames(students)
    ensures r == EmptyName <==> AllSpace(rawName)
    ensures r.Stored? <==>
      !AllSpace(rawName) && ParseDecimal(Strip(rawMarks)).Some? &&
      MinMarks <= ParseDecimal(Strip(rawMarks)).value <= MaxMarks
    ensures r.Stored? ==> r.students == Put(students, Strip(rawName), ParseDecimal(Strip(rawMarks)).value)
  {
    var name := Strip(rawName);
    StripEmptyIff(rawName);
    if name == [] then EmptyName
    else match ParseDecimal(Strip(rawMarks))
      case None => NotANumber
      case Some(marks) =>
        if marks < MinMarks || marks > MaxMarks then OutOfRange
        else Stored(Put(students, name, marks))
  }

  /** Every stored name is stripped and non-empty and every stored mark is in 0..100. */
  predicate Accepted(students: seq<Entry>)
  {
    forall k :: 0 <= k < |students| ==>
      students[k].name != [] && Strip(students[k].name) == students[k].name &&
      MinMarks <= students[k].marks <= MaxMarks
  }

  lemma PutKeepsAccepted(students: seq<Entry>, name: string, marks: real)
    requires DistinctNames(students) && Accepted(students)
    requires name != [] && Strip(name) == name && MinMarks <= marks <= MaxMarks
    ensures Accepted(Put(students, name, marks))
  {
    var s := Put(students, name, marks);
    forall k | 0 <= k < |s|
      ensures s[k].name != [] && Strip(s[k].name) == s[k].name && MinMarks <= s[k].marks <= MaxMarks
    {
      if s[k].name != name {
        assert k < |students|;
      }
    }
  }

  /** Entering data only ever keeps the dictionary acceptable. */
  lemma EnterKeepsAccepted(students: seq<Entry>, rawName: string, rawMarks: string)
    requires DistinctNames(students) && Accepted(students)
    ensures Enter(students, rawName, rawMarks).Stored? ==> Accepted(Enter(students, rawName, rawMarks).students)
  {
    if Enter(students, rawName, rawMarks).Stored? {
      StripEmptyIff(rawName);
      StripIdempotent(rawName);
      PutKeepsAccepted(students, Strip(rawName), ParseDecimal(Strip(rawMarks)).value);
    }
  }

  // ---------------------------------------------------------------- calculate_average

  function Sum(students: seq<Entry>): real
  {
    if students == [] then 0.0 else students[0].marks + Sum(students[1..])
  }

  /** `calculate_average`: 0 for no students, otherwise the sum of the marks over their number. */
  function CalculateAverage(students: seq<Entry>): (average: real)
    ensures students == [] ==> average == 0.0
    ensures students != [] ==> average * |students| as real == Sum(students)
  {
    if students == [] then 0.0 else Sum(students) / |students| as real
  }

  /** No mark above `hi` means a sum of at most `|students| * hi`. */
  lemma {:induction false} SumAtMost(students: seq<Entry>, hi: real)
    requires forall k :: 0 <= k < |students| ==> students[k].marks <= hi
    ensures Sum(students) <= |students| as real * hi
  {
    if students != [] {
      assert forall k :: 0 <= k < |students| - 1 ==> students[1..][k] == students[k + 1];
      SumAtMost(students[1..], hi);
    }
  }

  /** No mark below `lo` means a sum of at least `|students| * lo`. */
  lemma {:induction false} SumAtLeast(students: seq<Entry>, lo: real)
    requires forall k :: 0 <= k < |students| ==> lo <= students[k].marks
    ensures |students| as real * lo <= Sum(students)
  {
    if students != [] {
      assert forall k :: 0 <= k < |students| - 1 ==> students[1..][k] == students[k + 1];
      SumAtLeast(students[1..], lo);
    }
  }

  /** The average is at most any bound on the marks. */
  lemma AverageAtMost(students: seq<Entry>, hi: real)
    requires students != []
    requires forall k :: 0 <= k < |students| ==> students[k].marks <= hi
    ensures CalculateAverage(students) <= hi
  {
    SumAtMost(students, hi);
    ScaledOrder(CalculateAverage(students), hi, |students| as real);
  }

  /** The average lies between the lowest and the highest mark; in particular it is a valid mark. */
  lemma AverageBounds(students: seq<Entry>, lo: real, hi: real)
    requires students != []
    requires forall k :: 0 <= k < |students| ==> lo <= students[k].marks <= hi
    ensures lo <= CalculateAverage(students) <= hi
  {
    AverageAtMost(students, hi);
    SumAtLeast(students, lo);
    ScaledOrder(lo, CalculateAverage(students), |students| as real);
  }

  /** Multiplying by a positive count keeps the order. */
  lemma ScaledOrder(a: real, b: real, n: real)
    requires n > 0.0 && a * n <= b * n
    ensures a <= b
  {
  }

  // ---------------------------------------------------------------- find_top_scorers

  /** `max(students.values())`. */
  function MaxOf(students: seq<Entry>): (m: real)
    requires students != []
    ensures forall k :: 0 <= k < |students| ==> students[k].marks <= m
    ensures exists k :: 0 <= k < |students| && students[k].marks == m
  {
    if |students| == 1 then students[0].marks
    else
      var rest := MaxOf(students[1..]);
      assert forall k :: 1 <= k < |students| ==> students[k] == students[1..][k - 1];
      if students[0].marks >= rest then students[0].marks else rest
  }

  /** `[name for name, marks in students.items() if marks == m]`. */
  function NamesWith(students: seq<Entry>, m: real): seq<string>
  {
    if students == [] then []
    else (if students[0].marks == m then [students[0].name] else []) + NamesWith(students[1..], m)
  }

  /** `[name for name, marks in students.items() if marks > average]`. */
  function FindAboveAverage(students: seq<Entry>, average: real): seq<string>
  {
    if students == [] then []
    else (if students[0].marks > average then [students[0].name] else []) + FindAboveAverage(students[1..], average)
  }

  lemma {:induction false} NamesWithMembers(students: seq<Entry>, m: real, name: string)
    ensures name in NamesWith(students, m) <==> exists k :: 0 <= k < |students| && students[k].name == name && students[k].marks == m
  {
    if students != [] {
      NamesWithMembers(students[1..], m, name);
      assert forall k :: 1 <= k < |students| ==> students[k] == students[1..][k - 1];
      if exists k :: 0 <= k < |students[1..]| && students[1..][k].name == name && students[1..][k].marks == m {
        var k :| 0 <= k < |students[1..]| && students[1..][k].name == name && students[1..][k].marks == m;
        assert students[k + 1] == students[1..][k];
      }
    }
  }

  /** A student is listed as above average exactly when their mark is strictly greater than the average. */
  lemma {:induction false} AboveAverageMembers(students: seq<Entry>, average: real, name: string)
    ensures name in FindAboveAverage(students, average) <==>
      exists k :: 0 <= k < |students| && students[k].name == name && students[k].marks > average
  {
    if students != [] {
      AboveAverageMembers(students[1..], average, name);
      assert forall k :: 1 <= k < |students| ==> students[k] == students[1..][k - 1];
      if exists k :: 0 <= k < |students[1..]| && students[1..][k].name == name && students[1..][k].marks > average {
        var k :| 0 <= k < |students[1..]| && students[1..][k].name == name && students[1..][k].marks > average;
        assert students[k + 1] == students[1..][k];
      }
    }
  }

  /** `find_top_scorers`: `None` for no students (the source returns an empty list there), otherwise the names
      holding the highest mark, in dictionary order, and that mark. */
  function FindTopScorers(students: seq<Entry>): (r: Option<(seq<string>, real)>)
    ensures r.None? <==> students == []
    ensures r.Some? ==> r.value.0 == NamesWith(students, r.value.1)
    ensures r.Some? ==> forall k :: 0 <= k < |students| ==> students[k].marks <= r.value.1
    ensures r.Some? ==> exists k :: 0 <= k < |students| && students[k].marks == r.value.1
  {
    if students == [] then None else Some((NamesWith(students, MaxOf(students)), MaxOf(students)))
  }

  /** There is at least one top scorer, each holds the top mark, and no top mark is below the average. */
  lemma TopScorers(students: seq<Entry>, name: string)
    requires students != []
    ensures var (names, top) := FindTopScorers(students).value;
      && names != []
      && (name in names <==> exists k :: 0 <= k < |students| && students[k].name == name && students[k].marks == top)
      && top >= CalculateAverage(students)
  {
    var (names, top) := FindTopScorers(students).value;
    NamesWithMembers(students, top, name);
    var k :| 0 <= k < |students| && students[k].marks == top;
    NamesWithMembers(students, top, students[k].name);
    AverageAtMost(students, top);
  }

  // ---------------------------------------------------------------- get_sorted_students

  /** `students.keys()`. */
  function Names(students: seq<Entry>): (names: seq<string>)
    ensures |names| == |students|
    ensures forall k :: 0 <= k < |students| ==> names[k] == students[k].name
  {
    seq(|students|, k requires 0 <= k < |students| => students[k].name)
  }

  predicate Sorted(names: seq<string>)
  {
    forall i, j :: 0 <= i < j < |names| ==> LexLe(names[i], names[j])
  }

  function Insert(x: string, sorted: seq<string>): (r: seq<string>)
    ensures multiset(r) == multiset(sorted) + multiset{x}
  {
    if sorted == [] then [x]
    else if LexLe(x, sorted[0]) then [x] + sorted
    else
      assert sorted == [sorted[0]] + sorted[1..];
      [sorted[0]] + Insert(x, sorted[1..])
  }

  lemma {:induction false} InsertSorted(x: string, sorted: seq<string>)
    requires Sorted(sorted)
    ensures Sorted(Insert(x, sorted))
  {
    if sorted != [] && !LexLe(x, sorted[0]) {
      var rest := sorted[1..];
      assert Sorted(rest) && forall k :: 0 <= k < |rest| ==> LexLe(sorted[0], rest[k]) by {
        forall i, j | 0 <= i < j < |rest| ensures LexLe(rest[i], rest[j]) {
          assert rest[i] == sorted[i + 1] && rest[j] == sorted[j + 1];
        }
        forall k | 0 <= k < |rest| ensures LexLe(sorted[0], rest[k]) {
          assert rest[k] == sorted[k + 1];
        }
      }
      InsertSorted(x, rest);
      LexLeTotal(x, sorted[0]);
      InsertKeepsLowerBound(sorted[0], x, rest);
      ConsSorted(sorted[0], Insert(x, rest));
    } else if sorted != [] {
      forall k | 0 <= k < |sorted| ensures LexLe(x, sorted[k]) {
        if k > 0 { LexLeTransitive(x, sorted[0], sorted[k]); }
      }
      ConsSorted(x, sorted);
    }
  }

  /** A name at or below every name of a sorted list can go in front of it. */
  lemma ConsSorted(h: string, tail: seq<string>)
    requires Sorted(tail)
    requires forall k :: 0 <= k < |tail| ==> LexLe(h, tail[k])
    ensures Sorted([h] + tail)
  {
    var r := [h] + tail;
    forall i, j | 0 <= i < j < |r| ensures LexLe(r[i], r[j]) {
      if i == 0 {
        assert r[j] == tail[j - 1];
      } else {
        assert r[i] == tail[i - 1] && r[j] == tail[j - 1];
      }
    }
  }

  /** Inserting a name at or above a lower bound keeps every name at or above it. */
  lemma InsertKeepsLowerBound(h: string, x: string, rest: seq<string>)
    requires LexLe(h, x)
    requires forall k :: 0 <= k < |rest| ==> LexLe(h, rest[k])
    ensures forall k :: 0 <= k < |Insert(x, rest)| ==> LexLe(h, Insert(x, rest)[k])
  {
    var t := Insert(x, rest);
    forall k | 0 <= k < |t| ensures LexLe(h, t[k]) {
      assert t[k] in multiset(t);
      if t[k] != x {
        assert t[k] in multiset(rest);
        var m :| 0 <= m < |rest| && rest[m] == t[k];
      }
    }
  }

  /** Insertion sort, standing for Python's `sorted`. */
  function SortNames(names: seq<string>): seq<string>
  {
    if names == [] then [] else Insert(names[0], SortNames(names[1..]))
  }

  lemma {:induction false} SortNamesCorrect(names: seq<string>)
    ensures Sorted(SortNames(names))
    ensures multiset(SortNames(names)) == multiset(names)
  {
    if names != [] {
      SortNamesCorrect(names[1..]);
      InsertSorted(names[0], SortNames(names[1..]));
      assert names == [names[0]] + names[1..];
    }
  }

  /** `get_sorted_students`. */
  function GetSortedStudents(students: seq<Entry>): seq<string>
  {
    SortNames(Names(students))
  }

  /** The names come out in ascending order and are exactly the dictionary's keys. */
  lemma SortedStudents(students: seq<Entry>)
    ensures var r := GetSortedStudents(students);
      && Sorted(r)
      && multiset(r) == multiset(Names(students))
      && (forall name :: name in r <==> HasName(students, name))
  {
    var names := Names(students);
    var r := GetSortedStudents(students);
    SortNamesCorrect(names);
    forall name ensures name in r <==> HasName(students, name) {
      assert name in r <==> name in multiset(r);
      assert name in names <==> name in multiset(names);
      if HasName(students, name) {
        var k :| 0 <= k < |students| && students[k].name == name;
        assert names[k] == name;
      }
    }
  }

  /** Two equal elements at different positions make a count of at least two. */
  lemma TwiceCounted(r: seq<string>, i: nat, j: nat)
    requires i < j < |r| && r[i] == r[j]
    ensures multiset(r)[r[i]] >= 2
  {
    assert r == r[..j] + r[j..];
    assert r[i] == r[..j][i];
    assert r[j] == r[j..][0];
    assert multiset(r) == multiset(r[..j]) + multiset(r[j..]);
  }

  /** Since the keys are distinct, no name is listed twice. */
  lemma SortedStudentsDistinct(students: seq<Entry>)
    requires DistinctNames(students)
    ensures var r := GetSortedStudents(students); forall i, j :: 0 <= i < j < |r| ==> r[i] != r[j]
  {
    var r := GetSortedStudents(students);
    SortNamesCorrect(Names(students));
    forall i, j | 0 <= i < j < |r| ensures r[i] != r[j] {
      DistinctCount(students, r[i]);
      if r[i] == r[j] {
        TwiceCounted(r, i, j);
        assert false;
      }
    }
  }

  /** With distinct keys, every name occurs at most once among them. */
  lemma {:induction false} DistinctCount(students: seq<Entry>, name: string)
    requires DistinctNames(students)
    ensures multiset(Names(students))[name] <= 1
  {
    if students != [] {
      var rest := students[1..];
      assert DistinctNames(rest) by {
        forall i, j | 0 <= i < j < |rest| ensures rest[i].name != rest[j].name {
          assert rest[i] == students[i + 1] && rest[j] == students[j + 1];
        }
      }
      DistinctCount(rest, name);
      assert Names(students) == [students[0].name] + Names(rest);
      if students[0].name == name {
        assert !HasName(rest, name) by {
          forall k | 0 <= k < |rest| ensures rest[k].name != name {
            assert rest[k] == students[k + 1];
          }
        }
        assert name !in Names(rest);
      }
    }
  }

  // ---------------------------------------------------------------- display_results

  datatype Status = AboveAverage | BelowAverage | Average

  /** The status shown next to each student. */
  function StatusOf(marks: real, average: real): (s: Status)
    ensures s == AboveAverage <==> marks > average
    ensures s == BelowAverage <==> marks < average
    ensures s == Average <==> marks == average
  {
    if marks > average then AboveAverage else if marks < average then BelowAverage else Average
  }

  function StatusText(s: Status): string
  {
    match s
    case AboveAverage => "Above Average"
    case BelowAverage => "Below Average"
    case Average => "Average"
  }

  /** A student is listed above average exactly when their status says so. */
  lemma StatusAgreesWithList(students: seq<Entry>, k: nat)
    requires DistinctNames(students) && k < |students|
    ensures var average := CalculateAverage(students);
      students[k].name in FindAboveAverage(students, average) <==> StatusOf(students[k].marks, average) == AboveAverage
  {
    var average := CalculateAverage(students);
    AboveAverageMembers(students, average, students[k].name);
    if students[k].name in FindAboveAverage(students, average) {
      var j :| 0 <= j < |students| && students[j].name == students[k].name && students[j].marks > average;
      assert j == k;
    }
  }

  /** With no mark above `a`, a sum of exactly `|students| * a` means every mark is `a`. */
  lemma {:induction false} SumAtMaximum(students: seq<Entry>, a: real)
    requires forall k :: 0 <= k < |students| ==> students[k].marks <= a
    requires Sum(students) == |students| as real * a
    ensures forall k :: 0 <= k < |students| ==> students[k].marks == a
  {
    if students != [] {
      var rest := students[1..];
      assert forall k :: 0 <= k < |rest| ==> rest[k] == students[k + 1];
      SumAtMost(rest, a);
      assert students[0].marks == a;
      SumAtMaximum(rest, a);
    }
  }

  /** Nobody above `a`, with `a` the mean, means every mark is `a`. */
  lemma NobodyAboveMean(students: seq<Entry>, a: real)
    requires FindAboveAverage(students, a) == [] && a * |students| as real == Sum(students)
    ensures forall k :: 0 <= k < |students| ==> students[k].marks == a
  {
    assert Sum(students) == |students| as real * a;
    forall k | 0 <= k < |students| ensures students[k].marks <= a {
      AboveAverageMembers(students, a, students[k].name);
    }
    SumAtMaximum(students, a);
  }

  /** Nobody is above average only when every mark equals the average. */
  lemma NobodyAboveAverage(students: seq<Entry>, average: real)
    requires students != [] && average == CalculateAverage(students)
    requires FindAboveAverage(students, average) == []
    ensures forall k :: 0 <= k < |students| ==> students[k].marks == average
  {
    NobodyAboveMean(students, average);
  }
}
