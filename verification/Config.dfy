/** The line-number check of Server::parse_configfile. */
module Config {
  /** How the check of one device's lines ends. */
  datatype Verdict =
    | Accepted
    | DefinedTwice(number: int)
    | OutsideRange(number: int)

  predicate Distinct(numbers: seq<int>) {
    forall i, j :: 0 <= i < j < |numbers| ==> numbers[i] != numbers[j]
  }

  predicate InRange(numbers: seq<int>, n: nat) {
    forall i :: 0 <= i < |numbers| ==> 0 <= numbers[i] < n
  }

  function Upto(n: nat): (s: set<int>)
    ensures |s| == n && forall k :: k in s <==> 0 <= k < n
  {
    if n == 0 then {} else Upto(n - 1) + {n - 1}
  }

  function Members(numbers: seq<int>): set<int> {
    set i | 0 <= i < |numbers| :: numbers[i]
  }

  lemma {:induction false} DistinctCount(numbers: seq<int>)
    requires Distinct(numbers)
    ensures |Members(numbers)| == |numbers|
  {
    if numbers != [] {
      var front, last := numbers[..|numbers| - 1], numbers[|numbers| - 1];
      DistinctCount(front);
      assert last !in Members(front);
      assert Members(numbers) == Members(front) + {last};
    }
  }

  lemma {:induction false} SubsetOfSameSize(a: set<int>, b: set<int>)
    requires a <= b && |a| == |b|
    ensures a == b
  {
    var extra := b - a;
    assert b == a + extra;
  }

  /** n different numbers in 0..n-1 are all of them: the line numbers of an accepted
      device are a permutation of 0..n-1. */
  lemma AcceptedNumbersArePermutation(numbers: seq<int>)
    requires Distinct(numbers) && InRange(numbers, |numbers|)
    ensures Members(numbers) == Upto(|numbers|)
    ensures forall k :: 0 <= k < |numbers| ==> k in numbers
  {
    DistinctCount(numbers);
    SubsetOfSameSize(Members(numbers), Upto(|numbers|));
    forall k | 0 <= k < |numbers| ensures k in numbers {
      assert k in Members(numbers);
    }
  }

  /** The loop over the configured lines, in the order of their names: checks each
      number and registers the line under it. A rejected device is never listed. */
  method CheckAndRegister(names: seq<string>, numbers: seq<int>) returns (verdict: Verdict, lines: map<int, string>)
    requires |names| == |numbers|
    ensures verdict.Accepted? <==> Distinct(numbers) && InRange(numbers, |numbers|)
    ensures verdict.Accepted? ==>
      && lines.Keys == Upto(|numbers|)
      && |lines| == |numbers|
      && forall i :: 0 <= i < |numbers| ==> numbers[i] in lines && lines[numbers[i]] == names[i]
    ensures verdict.DefinedTwice? ==> exists i, j :: 0 <= i < j < |numbers| && numbers[i] == numbers[j] == verdict.number
    ensures verdict.OutsideRange? ==> verdict.number in numbers && !(0 <= verdict.number < |numbers|)
  {
    var size := |numbers|;
    var check_lines := new bool[size](_ => false);
    lines := map[];
    var i := 0;
    while i < size
      invariant 0 <= i <= size
      invariant Distinct(numbers[..i]) && InRange(numbers[..i], size)
      invariant forall k :: 0 <= k < size ==> (check_lines[k] <==> k in numbers[..i])
      invariant lines.Keys == Members(numbers[..i])
      invariant forall j :: 0 <= j < i ==> numbers[j] in lines && lines[numbers[j]] == names[j]
    {
      var number := numbers[i];
      assert numbers[..i + 1] == numbers[..i] + [number];
      if 0 <= number < size && !check_lines[number] {
        assert number !in numbers[..i];
        check_lines[number] := true;
      } else if 0 <= number < size && check_lines[number] {
        var j :| 0 <= j < i && numbers[..i][j] == number;
        return DefinedTwice(number), lines;
      } else {
        return OutsideRange(number), lines;
      }
      lines := lines[number := names[i]];
      assert Members(numbers[..i + 1]) == Members(numbers[..i]) + {number};
      i := i + 1;
    }
    assert numbers[..size] == numbers;
    AcceptedNumbersArePermutation(numbers);
    assert |lines| == |lines.Keys|;
    return Accepted, lines;
  }
}
