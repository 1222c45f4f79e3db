// The lowest free numbered label.
module Labels {
  import opened Forests

  function Digit(d: nat): char
    requires d < 10
  {
    ['0', '1', '2', '3', '4', '5', '6', '7', '8', '9'][d]
  }

  function Decimal(n: nat): (s: string)
    ensures s != ""
  {
    (if n < 10 then "" else Decimal(n / 10)) + [Digit(n % 10)]
  }

  // The number a string of digits is, read by their codes.
  function Reading(s: string): int
    decreases |s|
  {
    if s == "" then 0 else Reading(s[..|s| - 1]) * 10 + (s[|s| - 1] as int - '0' as int)
  }

  // A number is written with digits that read as it, and with no zero in front.
  lemma {:induction false} DecimalReadsBack(n: nat)
    ensures Reading(Decimal(n)) == n && forall c :: c in Decimal(n) ==> '0' <= c <= '9'
    ensures n > 0 ==> Decimal(n)[0] != '0'
  {
    var s := Decimal(n);
    var front := if n < 10 then "" else Decimal(n / 10);
    assert s[..|s| - 1] == front;
    if n < 10 {
    } else {
      DecimalReadsBack(n / 10);
    }
  }

  lemma {:induction false} DecimalIsInjective(m: nat, n: nat)
    requires Decimal(m) == Decimal(n)
    ensures m == n
    decreases m
  {
    var s := Decimal(m);
    assert s[|s| - 1] == Digit(m % 10) && s[|s| - 1] == Digit(n % 10);
    assert m % 10 == n % 10;
    var front := s[..|s| - 1];
    assert front == if m < 10 then "" else Decimal(m / 10);
    assert front == if n < 10 then "" else Decimal(n / 10);
    if m >= 10 && n >= 10 { DecimalIsInjective(m / 10, n / 10); }
  }

  function Candidate(prefix: string, index: nat): string {
    prefix + "_" + Decimal(index)
  }

  // A label is the prefix, an underscore and the number in decimal.
  lemma CandidateReads(prefix: string, index: nat)
    ensures |prefix| + 1 < |Candidate(prefix, index)|
    ensures Candidate(prefix, index)[..|prefix| + 1] == prefix + "_"
    ensures Reading(Candidate(prefix, index)[|prefix| + 1..]) == index
  {
    var s := Candidate(prefix, index);
    assert s[|prefix| + 1..] == Decimal(index);
    DecimalReadsBack(index);
  }

  lemma CandidateIsInjective(prefix: string, m: nat, n: nat)
    requires Candidate(prefix, m) == Candidate(prefix, n)
    ensures m == n
  {
    assert Candidate(prefix, m)[|prefix + "_"|..] == Decimal(m);
    assert Candidate(prefix, n)[|prefix + "_"|..] == Decimal(n);
    DecimalIsInjective(m, n);
  }

  // The first n candidates.
  ghost function Candidates(prefix: string, n: nat): (s: set<string>)
    ensures forall x :: x in s <==> exists j :: 1 <= j <= n && x == Candidate(prefix, j)
  {
    if n == 0 then {} else Candidates(prefix, n - 1) + {Candidate(prefix, n)}
  }

  lemma {:induction false} CandidatesAreDifferent(prefix: string, n: nat)
    ensures |Candidates(prefix, n)| == n
  {
    if n == 0 {
    } else {
      CandidatesAreDifferent(prefix, n - 1);
      if Candidate(prefix, n) in Candidates(prefix, n - 1) {
        var j :| 1 <= j <= n - 1 && Candidate(prefix, n) == Candidate(prefix, j);
        CandidateIsInjective(prefix, n, j);
      }
    }
  }

  // So many labels in use leave one of the next few free.
  lemma TakenRunIsShort(prefix: string, n: nat, taken: set<string>)
    requires forall j :: 1 <= j <= n ==> Candidate(prefix, j) in taken
    ensures n <= |taken|
  {
    CandidatesAreDifferent(prefix, n);
    SubsetIsNoLarger(Candidates(prefix, n), taken);
  }

  // The loop has no bound of its own: it ends because numbers are written
  // differently, and it ends at the least number whose label is free.
  method NextAvailableLabel(prefix: string, existing: seq<string>) returns (candidate: string, index: nat)
    ensures candidate == Candidate(prefix, index) && index >= 1 && candidate !in existing
    ensures forall j :: 1 <= j < index ==> Candidate(prefix, j) in existing
  {
    var taken := set x | x in existing;
    index := 1;
    while true
      invariant index >= 1 && forall j :: 1 <= j < index ==> Candidate(prefix, j) in taken
      decreases |taken| + 1 - index
    {
      candidate := Candidate(prefix, index);
      if candidate !in taken { return; }
      TakenRunIsShort(prefix, index, taken);
      index := index + 1;
    }
  }
}
