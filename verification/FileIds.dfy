// std::to_string and stoi on file names, and the scan for the next free id.
module FileIds {

  const INT_MAX: nat := 0x7FFF_FFFF

  predicate Digit(c: char) { '0' <= c <= '9' }

  // What is_number accepts: at least one character, all of them digits.
  predicate IsDigits(s: string) {
    s != "" && forall i :: 0 <= i < |s| ==> Digit(s[i])
  }

  method IsNumber(s: string) returns (r: bool)
    ensures r <==> IsDigits(s)
  {
    var it := 0;
    while it != |s| && Digit(s[it])
      invariant 0 <= it <= |s|
      invariant forall i :: 0 <= i < it ==> Digit(s[i])
      decreases |s| - it
    {
      it := it + 1;
    }
    return s != "" && it == |s|;
  }

  function DigitValue(c: char): nat {
    if Digit(c) then (c - '0') as nat else 0
  }

  // stoi on a string of digits.
  function Value(s: string): nat {
    if s == "" then 0 else 10 * Value(s[..|s| - 1]) + DigitValue(s[|s| - 1])
  }

  // std::to_string on a number that is not negative.
  function Decimal(n: nat): string {
    var digit := '0' + (n % 10) as char;
    if n < 10 then [digit] else Decimal(n / 10) + [digit]
  }

  lemma {:induction false} DecimalRoundTrip(n: nat)
    ensures IsDigits(Decimal(n)) && Value(Decimal(n)) == n
  {
    if n < 10 {
      assert Decimal(n)[..0] == "";
    } else {
      DecimalRoundTrip(n / 10);
      var s := Decimal(n);
      assert s[..|s| - 1] == Decimal(n / 10);
    }
  }

  // ---- The largest id in a directory ----

  ghost predicate IsLargest(names: set<string>, m: nat) {
    && (forall n :: n in names ==> Value(n) <= m)
    && (m == 0 || exists n :: n in names && Value(n) == m)
  }

  lemma LargestMore(names: set<string>, m: nat, name: string)
    requires IsLargest(names, m)
    ensures IsLargest(names + {name}, if Value(name) > m then Value(name) else m)
  {
    assert name in names + {name};
    if m != 0 {
      var n :| n in names && Value(n) == m;
      assert n in names + {name};
    }
  }

  lemma LargestExists(names: set<string>) returns (m: nat)
    ensures IsLargest(names, m)
    decreases names
  {
    if names == {} {
      m := 0;
    } else {
      var n :| n in names;
      m := LargestExists(names - {n});
      if Value(n) > m { m := Value(n); }
    }
  }

  ghost function Largest(names: set<string>): (m: nat)
    ensures IsLargest(names, m)
  {
    assert exists m: nat :: IsLargest(names, m) by { var m := LargestExists(names); }
    var m: nat :| IsLargest(names, m);
    m
  }

  // Neither stoi on a name nor adding one to the largest leaves the range of int.
  ghost predicate InRange(names: set<string>) {
    forall n :: n in names ==> IsDigits(n) && Value(n) < INT_MAX
  }

  // get_unique_file_name: the names are visited in some order.
  method GetUniqueFileName(names: set<string>) returns (id: nat)
    requires InRange(names)
    ensures id == Largest(names) + 1 && id <= INT_MAX
  {
    var largestFile := 0;
    var todo := names;
    ghost var seen: set<string> := {};
    while todo != {}
      invariant seen + todo == names
      invariant IsLargest(seen, largestFile)
      decreases todo
    {
      var name :| name in todo;
      LargestMore(seen, largestFile, name);
      var current := Value(name);
      if current > largestFile {
        largestFile := current;
      }
      seen, todo := seen + {name}, todo - {name};
    }
    assert seen == names;
    id := largestFile + 1;
  }

  // The text of the next id is not the name of any file there, leading zeros included.
  lemma FreshAsText(names: set<string>)
    ensures Decimal(Largest(names) + 1) !in names
  {
    DecimalRoundTrip(Largest(names) + 1);
  }
}
