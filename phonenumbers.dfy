/** The phone-number page: at start-up, distinct random numbers of the form
    `89` followed by nine digits are collected until there are 1000, and
    shown in sorted order; a second page echoes its `number` parameter. */
module PhoneNumbers {
  import opened Tables
  import opened Text
  import opened Sorting

  const COUNT := 1000

  /** Every value in the stream is a possible `random.randint(0, 9)`. */
  predicate Digits(draws: seq<int>) {
    forall i :: 0 <= i < |draws| ==> 0 <= draws[i] <= 9
  }

  /** `''.join(str(d) for d in ds)`. */
  function DigitString(ds: seq<int>): (r: string)
    requires Digits(ds)
    ensures |r| == |ds|
    ensures forall k :: 0 <= k < |ds| ==> r[k] as int == '0' as int + ds[k]
  {
    if ds == [] then [] else [('0' as int + ds[0]) as char] + DigitString(ds[1..])
  }

  /** The `n`-th number the loop draws, from the `n`-th block of nine draws. */
  function Candidate(draws: seq<int>, n: nat): (r: string)
    requires Digits(draws) && 9 * (n + 1) <= |draws|
    ensures |r| == 11 && r[..2] == "89"
    ensures forall k :: 2 <= k < 11 ==> r[k] as int == '0' as int + draws[9 * n + k - 2]
  {
    "89" + DigitString(draws[9 * n..9 * (n + 1)])
  }

  /** An entry of the list: eleven characters, `89` and then nine decimal digits. */
  predicate WellFormed(s: string) {
    |s| == 11 && s[0] == '8' && s[1] == '9' && forall k :: 2 <= k < 11 ==> '0' <= s[k] <= '9'
  }

  lemma CandidateWellFormed(draws: seq<int>, n: nat)
    requires Digits(draws) && 9 * (n + 1) <= |draws|
    ensures WellFormed(Candidate(draws, n))
  {
    var ds := draws[9 * n..9 * (n + 1)];
    var c := Candidate(draws, n);
    forall k | 2 <= k < 11 ensures '0' <= c[k] <= '9' {
      assert c[k] == DigitString(ds)[k - 2];
      assert 0 <= ds[k - 2] <= 9;
    }
  }

  /** The set after the first `n` passes of the loop. */
  function Drawn(draws: seq<int>, n: nat): (r: set<string>)
    requires Digits(draws) && 9 * n <= |draws|
    ensures |r| <= n
  {
    if n == 0 then {} else Drawn(draws, n - 1) + {Candidate(draws, n - 1)}
  }

  lemma {:induction false} DrawnWellFormed(draws: seq<int>, n: nat)
    requires Digits(draws) && 9 * n <= |draws|
    ensures forall s :: s in Drawn(draws, n) ==> WellFormed(s)
  {
    if n > 0 {
      DrawnWellFormed(draws, n - 1);
      CandidateWellFormed(draws, n - 1);
    }
  }

  // ---------------------------------------------------------------------
  // String order on digit strings of one length is numeric order

  function Pow10(n: nat): (r: nat)
    ensures r >= 1
  {
    if n == 0 then 1 else 10 * Pow10(n - 1)
  }

  predicate AllDecimal(s: string) {
    forall k :: 0 <= k < |s| ==> '0' <= s[k] <= '9'
  }

  /** The number a string of decimal digits denotes. */
  function Value(s: string): (r: nat)
    requires AllDecimal(s)
    ensures r < Pow10(|s|)
  {
    if s == [] then 0
    else
      var d := s[0] as int - '0' as int;
      assert AllDecimal(s[1..]);
      LeadingDigitBound(d, Value(s[1..]), Pow10(|s| - 1));
      d * Pow10(|s| - 1) + Value(s[1..])
  }

  lemma LeadingDigitBound(d: int, rest: nat, p: nat)
    requires 0 <= d <= 9 && rest < p
    ensures 0 <= d * p + rest < 10 * p
  {
  }

  /** A smaller leading digit wins whatever follows. */
  lemma LeadingDigitDecides(d: int, e: int, x: nat, y: nat, p: nat)
    requires 0 <= d < e && x < p
    ensures d * p + x < e * p + y
  {
    assert (d + 1) * p <= e * p;
  }

  /** Two different strings of one length are ordered one way or the other. */
  lemma {:induction false} LexTotal(a: string, b: string)
    requires |a| == |b| && a != b
    ensures LexLess(a, b) || LexLess(b, a)
  {
    if a[0] == b[0] {
      assert a == [a[0]] + a[1..] && b == [b[0]] + b[1..];
      LexTotal(a[1..], b[1..]);
    }
  }

  /** On digit strings of one length, string order implies numeric order. */
  lemma {:induction false} LexValue(a: string, b: string)
    requires |a| == |b| && AllDecimal(a) && AllDecimal(b) && LexLess(a, b)
    ensures Value(a) < Value(b)
  {
    assert AllDecimal(a[1..]) && AllDecimal(b[1..]);
    var p := Pow10(|a| - 1);
    var da, db := a[0] as int - '0' as int, b[0] as int - '0' as int;
    if da < db {
      LeadingDigitDecides(da, db, Value(a[1..]), Value(b[1..]), p);
    } else {
      assert a[0] == b[0];
      LexValue(a[1..], b[1..]);
    }
  }

  /** Hence, on digit strings of one length, string order is numeric order. */
  lemma LexIsNumeric(a: string, b: string)
    requires |a| == |b| && AllDecimal(a) && AllDecimal(b)
    ensures LexLess(a, b) <==> Value(a) < Value(b)
  {
    if LexLess(a, b) {
      LexValue(a, b);
    } else if a != b {
      LexTotal(a, b);
      LexValue(b, a);
    }
  }

  /** The sort key: the number the entry spells. */
  function NumberKey(s: string): Key {
    if AllDecimal(s) then (Value(s), 0, 0) else (0, 0, 0)
  }

  predicate NoDuplicates<T(==)>(s: seq<T>) {
    forall i, j :: 0 <= i < j < |s| ==> s[i] != s[j]
  }

  lemma {:induction false} NoDuplicatesCount<T>(s: seq<T>, x: T)
    requires NoDuplicates(s)
    ensures multiset(s)[x] <= 1
  {
    if s != [] {
      var init := s[..|s| - 1];
      assert s == init + [s[|s| - 1]];
      NoDuplicatesCount(init, x);
      if s[|s| - 1] == x {
        assert x !in init;
      }
    }
  }

  lemma DuplicateCount<T>(s: seq<T>, i: nat, j: nat)
    requires i < j < |s| && s[i] == s[j]
    ensures multiset(s)[s[i]] >= 2
  {
    assert s == s[..j] + [s[j]] + s[j + 1..];
    assert s[i] in s[..j];
  }

  lemma SamePermutationNoDuplicates<T>(s: seq<T>, t: seq<T>)
    requires NoDuplicates(s) && multiset(s) == multiset(t)
    ensures NoDuplicates(t)
  {
    forall i, j | 0 <= i < j < |t| ensures t[i] != t[j] {
      if t[i] == t[j] {
        DuplicateCount(t, i, j);
        NoDuplicatesCount(s, t[i]);
      }
    }
  }

  /** The elements of a set in some order. */
  method Elements(s: set<string>) returns (r: seq<string>)
    ensures NoDuplicates(r) && |r| == |s|
    ensures forall x :: x in r <==> x in s
  {
    r := [];
    var rest := s;
    while rest != {}
      invariant NoDuplicates(r)
      invariant forall x :: x in r <==> x in s && x !in rest
      invariant rest <= s
      invariant |r| + |rest| == |s|
      decreases |rest|
    {
      var x :| x in rest;
      r := r + [x];
      rest := rest - {x};
    }
  }

  /** Distinct entries sorted by their numeric value are in strictly
      increasing string order. */
  lemma {:induction false} NumericSortIsStringSort(sorted: seq<string>)
    requires SortedBy(sorted, NumberKey) && NoDuplicates(sorted)
    requires forall k :: 0 <= k < |sorted| ==> WellFormed(sorted[k])
    ensures forall i, j :: 0 <= i < j < |sorted| ==> LexLess(sorted[i], sorted[j])
  {
    forall i, j | 0 <= i < j < |sorted| ensures LexLess(sorted[i], sorted[j]) {
      var a, b := sorted[i], sorted[j];
      assert WellFormed(a) && WellFormed(b);
      assert AllDecimal(a) && AllDecimal(b);
      assert KeyLe(NumberKey(a), NumberKey(b));
      LexTotal(a, b);
      if LexLess(b, a) {
        LexValue(b, a);
      }
    }
  }

  /** `sorted(numbers)` for a set of well-formed entries. */
  method Sorted(numbers: set<string>) returns (r: seq<string>)
    requires forall s :: s in numbers ==> WellFormed(s)
    ensures |r| == |numbers|
    ensures forall x :: x in r <==> x in numbers
    ensures forall k :: 0 <= k < |r| ==> WellFormed(r[k])
    ensures StrictlyIncreasing(r)
  {
    var listed := Elements(numbers);
    r := SortBy(listed, NumberKey);
    SamePermutationNoDuplicates(listed, r);
    forall x ensures x in r <==> x in numbers {
      SortedMembers(listed, NumberKey, x);
    }
    NumericSortIsStringSort(r);
  }

  /** The `while len(numbers) < 1000` loop of `generate_numbers`, drawing
      from the finite stream `draws` in blocks of nine; `None` when the
      stream runs out first. */
  method Collect(draws: seq<int>) returns (r: Option<set<string>>)
    requires Digits(draws)
    ensures r.Some? ==> |r.value| == COUNT
    ensures r.Some? ==> exists n: nat :: 9 * n <= |draws| && r.value == Drawn(draws, n)
                                         && ShortBefore(draws, n)
    ensures r.None? ==> forall n: nat :: 9 * n <= |draws| ==> |Drawn(draws, n)| < COUNT
  {
    var numbers: set<string> := {};
    var n: nat := 0;
    while |numbers| < COUNT
      invariant 9 * n <= |draws|
      invariant numbers == Drawn(draws, n)
      invariant |numbers| <= COUNT
      invariant ShortBefore(draws, n)
      decreases |draws| - 9 * n
    {
      if 9 * (n + 1) > |draws| {
        ExhaustedStream(draws, n);
        return None;
      }
      numbers := numbers + {Candidate(draws, n)};
      DrawnStep(draws, n);
      n := n + 1;
    }
    r := Some(numbers);
  }

  /** `generate_numbers`: the random numbers become the stream `draws`, and
      the result is `None` when it runs out before 1000 distinct numbers are
      collected. */
  method GenerateNumbers(draws: seq<int>) returns (r: Option<seq<string>>)
    requires Digits(draws)
    ensures r.Some? ==> |r.value| == COUNT
    ensures r.Some? ==> forall k :: 0 <= k < |r.value| ==> WellFormed(r.value[k])
    ensures r.Some? ==> StrictlyIncreasing(r.value)
    ensures r.Some? ==> exists n: nat :: FirstToReach(draws, n, r.value)
    ensures r.None? ==> forall n: nat :: 9 * n <= |draws| ==> |Drawn(draws, n)| < COUNT
  {
    var numbers := Collect(draws);
    if numbers.None? {
      return None;
    }
    ghost var n: nat :| 9 * n <= |draws| && numbers.value == Drawn(draws, n) && ShortBefore(draws, n);
    DrawnWellFormed(draws, n);
    var sorted := Sorted(numbers.value);
    assert FirstToReach(draws, n, sorted);
    r := Some(sorted);
  }

  /** In strictly increasing string order, as `sorted` leaves a set. */
  predicate StrictlyIncreasing(r: seq<string>) {
    forall i, j :: 0 <= i < j < |r| ==> LexLess(r[i], r[j])
  }

  /** `r` holds the numbers of the first `n` passes, and `n` is the
      fewest passes that reach 1000 distinct numbers. */
  ghost predicate FirstToReach(draws: seq<int>, n: nat, r: seq<string>)
    requires Digits(draws)
  {
    && 9 * n <= |draws|
    && (forall x :: x in r <==> x in Drawn(draws, n))
    && ShortBefore(draws, n)
  }

  /** No fewer passes than `n` reach 1000 distinct numbers. */
  predicate ShortBefore(draws: seq<int>, n: nat)
    requires Digits(draws) && 9 * n <= |draws|
  {
    forall m: nat :: m < n ==> |Drawn(draws, m)| < COUNT
  }

  lemma DrawnStep(draws: seq<int>, n: nat)
    requires Digits(draws) && 9 * (n + 1) <= |draws|
    requires ShortBefore(draws, n) && |Drawn(draws, n)| < COUNT
    ensures Drawn(draws, n + 1) == Drawn(draws, n) + {Candidate(draws, n)}
    ensures |Drawn(draws, n + 1)| <= COUNT
    ensures ShortBefore(draws, n + 1)
  {
  }

  lemma ExhaustedStream(draws: seq<int>, n: nat)
    requires Digits(draws) && 9 * n <= |draws| < 9 * (n + 1)
    requires ShortBefore(draws, n) && |Drawn(draws, n)| < COUNT
    ensures forall m: nat :: 9 * m <= |draws| ==> |Drawn(draws, m)| < COUNT
  {
    forall m: nat | 9 * m <= |draws| ensures |Drawn(draws, m)| < COUNT {
      if m < n {
        assert |Drawn(draws, m)| < COUNT;
      } else {
        assert m == n;
      }
    }
  }

  /** `request.args.get("number", "")`: the first `number` parameter, or empty. */
  function NumberInfo(args: seq<(string, string)>): (r: string)
    ensures (exists k :: 0 <= k < |args| && args[k].0 == "number") ==>
      exists k :: 0 <= k < |args| && args[k].0 == "number" && r == args[k].1
        && forall m :: 0 <= m < k ==> args[m].0 != "number"
    ensures (forall k :: 0 <= k < |args| ==> args[k].0 != "number") ==> r == ""
  {
    match IndexOf(args, (a: (string, string)) => a.0 == "number")
    case None => ""
    case Some(k) => args[k].1
  }

  /** The three requests the unit tests make. */
  lemma NumberInfoEchoes()
    ensures NumberInfo([("number", "1234567890")]) == "1234567890"
    ensures NumberInfo([("number", "test-string")]) == "test-string"
    ensures NumberInfo([]) == ""
  {
  }
}
