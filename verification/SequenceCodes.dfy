/** Printed sequence numbers such as R-007 and OBJ-1024: how they are generated, and read back. */
module SequenceCodes {
  import opened Collections

  predicate IsDigit(c: char) { '0' <= c <= '9' }

  predicate AllDigits(s: string) { forall i :: 0 <= i < |s| ==> IsDigit(s[i]) }

  function DigitChar(d: nat): (c: char)
    requires d < 10
  {
    '0' + d as char
  }

  function DigitValue(c: char): nat
    requires IsDigit(c)
  {
    (c - '0') as nat
  }

  /** Decimal notation without leading zeros. */
  function Decimal(n: nat): string {
    if n < 10 then [DigitChar(n)] else Decimal(n / 10) + [DigitChar(n % 10)]
  }

  function PadStart(s: string, width: nat, fill: char): string
    decreases width - |s|
  {
    if |s| >= width then s else PadStart([fill] + s, width, fill)
  }

  function Print(prefix: string, n: nat): string {
    prefix + PadStart(Decimal(n), 3, '0')
  }

  /** The value of a string of digits, most significant first. */
  function Value(s: string): nat
    requires AllDigits(s)
  {
    if s == [] then 0 else 10 * Value(s[..|s| - 1]) + DigitValue(s[|s| - 1])
  }

  function DigitRun(s: string): nat {
    if s == [] || !IsDigit(s[0]) then 0 else 1 + DigitRun(s[1..])
  }

  lemma {:induction false} DigitRunIsDigits(s: string)
    ensures DigitRun(s) <= |s| && AllDigits(s[..DigitRun(s)])
    ensures AllDigits(s) ==> DigitRun(s) == |s|
  {
    if s == [] || !IsDigit(s[0]) {
    } else {
      DigitRunIsDigits(s[1..]);
      assert s[..DigitRun(s)] == [s[0]] + s[1..][..DigitRun(s[1..])];
    }
  }

  /** Reads the longest run of leading digits; no digits is no number. */
  function ParseInt(s: string): Option<nat> {
    DigitRunIsDigits(s);
    if DigitRun(s) == 0 then None else Some(Value(s[..DigitRun(s)]))
  }

  /** Removes the first occurrence of a pattern, if there is one. */
  function RemoveFirst(s: string, pattern: string): string {
    if |s| < |pattern| then s
    else if s[..|pattern|] == pattern then s[|pattern|..]
    else [s[0]] + RemoveFirst(s[1..], pattern)
  }

  function NumberOf(prefix: string, code: string): Option<nat> {
    ParseInt(RemoveFirst(code, prefix))
  }

  /** The shape every stored or submitted code has: the prefix and at least three digits. */
  predicate WellFormed(prefix: string, code: string) {
    && prefix <= code
    && |code| >= |prefix| + 3
    && AllDigits(code[|prefix|..])
  }

  lemma {:induction false} DecimalReadsBack(n: nat)
    ensures |Decimal(n)| >= 1 && AllDigits(Decimal(n)) && Value(Decimal(n)) == n
  {
    if n < 10 {
    } else {
      DecimalReadsBack(n / 10);
      assert Decimal(n)[..|Decimal(n)| - 1] == Decimal(n / 10);
    }
  }

  lemma {:induction false} LeadingZeroIsWorthless(s: string)
    requires AllDigits(s)
    ensures AllDigits("0" + s) && Value("0" + s) == Value(s)
  {
    if s == [] {
      assert ("0" + s)[..0] == [];
    } else {
      LeadingZeroIsWorthless(s[..|s| - 1]);
      assert ("0" + s)[..|s|] == "0" + s[..|s| - 1];
    }
  }

  lemma {:induction false} PaddingKeepsValue(s: string, width: nat)
    requires AllDigits(s)
    ensures var p := PadStart(s, width, '0');
            |p| >= width && |p| >= |s| && AllDigits(p) && Value(p) == Value(s)
    decreases width - |s|
  {
    if |s| >= width {
    } else {
      LeadingZeroIsWorthless(s);
      PaddingKeepsValue(['0'] + s, width);
    }
  }

  /** Reading a printed code gives its number back, whatever the padding did. */
  lemma PrintedNumberReadsBack(prefix: string, n: nat)
    ensures WellFormed(prefix, Print(prefix, n)) && NumberOf(prefix, Print(prefix, n)) == Some(n)
  {
    DecimalReadsBack(n);
    PaddingKeepsValue(Decimal(n), 3);
    var digits := PadStart(Decimal(n), 3, '0');
    assert Print(prefix, n)[..|prefix|] == prefix && Print(prefix, n)[|prefix|..] == digits;
    DigitRunIsDigits(digits);
    assert digits[..|digits|] == digits;
  }

  /** A printed number has three digits, or more with the first of them not zero. */
  lemma PrintedIsShortest(prefix: string, n: nat)
    ensures var code := Print(prefix, n);
            prefix <= code && (|code| == |prefix| + 3 || (|code| > |prefix| + 3 && code[|prefix|] != '0'))
  {
    var digits := PadStart(Decimal(n), 3, '0');
    assert Print(prefix, n)[|prefix|..] == digits;
    PaddedLength(Decimal(n), 3);
    if |digits| > 3 {
      NoLeadingZero(n);
    }
  }

  lemma PrintedExamples()
    ensures Print("R-", 7) == "R-007" && Print("OBJ-", 1) == "OBJ-001" && Print("OBJ-", 1024) == "OBJ-1024"
  {
    assert Decimal(7) == "7" && Decimal(1) == "1" && Decimal(10) == "10" && Decimal(102) == "102" && Decimal(1024) == "1024";
    assert ['0'] + "7" == "07" && ['0'] + "07" == "007" && ['0'] + "1" == "01" && ['0'] + "01" == "001";
    assert PadStart("7", 3, '0') == PadStart("07", 3, '0') == PadStart("007", 3, '0');
    assert PadStart("1", 3, '0') == PadStart("01", 3, '0') == PadStart("001", 3, '0');
  }

  lemma {:induction false} PaddedLength(s: string, width: nat)
    ensures |PadStart(s, width, '0')| == (if |s| >= width then |s| else width)
    ensures |s| >= width ==> PadStart(s, width, '0') == s
    decreases width - |s|
  {
    if |s| < width {
      PaddedLength(['0'] + s, width);
    }
  }

  lemma {:induction false} NoLeadingZero(n: nat)
    ensures |Decimal(n)| >= 1 && (n >= 1 ==> Decimal(n)[0] != '0')
    ensures n == 0 ==> |Decimal(n)| == 1
  {
    if n >= 10 {
      NoLeadingZero(n / 10);
    }
  }

  lemma WellFormedHasNumber(prefix: string, code: string)
    requires WellFormed(prefix, code)
    ensures NumberOf(prefix, code).Some?
  {
    assert code[..|prefix|] == prefix;
    DigitRunIsDigits(code[|prefix|..]);
  }

  predicate AllWellFormed(prefix: string, codes: seq<string>) {
    forall i :: 0 <= i < |codes| ==> WellFormed(prefix, codes[i])
  }

  function Number(prefix: string, code: string): nat
    requires WellFormed(prefix, code)
  {
    WellFormedHasNumber(prefix, code);
    NumberOf(prefix, code).value
  }

  /** The largest number in use, or 0. */
  function Highest(prefix: string, codes: seq<string>): (top: nat)
    requires AllWellFormed(prefix, codes)
    ensures forall i :: 0 <= i < |codes| ==> Number(prefix, codes[i]) <= top
    ensures top == 0 || exists i :: 0 <= i < |codes| && Number(prefix, codes[i]) == top
  {
    if codes == [] then 0
    else
      var rest := Highest(prefix, codes[1..]);
      var first := Number(prefix, codes[0]);
      assert forall i :: 1 <= i < |codes| ==> codes[i] == codes[1..][i - 1];
      assert first > rest ==> Number(prefix, codes[0]) == first;
      if first > rest then first else rest
  }

  predicate Distinct<T(==)>(s: seq<T>) {
    forall i, j :: 0 <= i < j < |s| ==> s[i] != s[j]
  }

  /** Keeps supplied codes and numbers the missing ones upwards from `used` + 1, in order. */
  function Assign(prefix: string, used: nat, supplied: seq<Option<string>>): (codes: seq<string>)
    ensures |codes| == |supplied|
    decreases |supplied|
  {
    if supplied == [] then []
    else match supplied[0]
      case Some(code) => [code] + Assign(prefix, used, supplied[1..])
      case None => [Print(prefix, used + 1)] + Assign(prefix, used + 1, supplied[1..])
  }

  /** How many codes are missing. */
  function Missing(supplied: seq<Option<string>>): nat {
    if supplied == [] then 0 else (if supplied[0].None? then 1 else 0) + Missing(supplied[1..])
  }

  /** Numbering two lists after each other is numbering their concatenation. */
  lemma {:induction false} AssignAppends(prefix: string, used: nat, first: seq<Option<string>>, second: seq<Option<string>>)
    ensures Assign(prefix, used, first + second) ==
            Assign(prefix, used, first) + Assign(prefix, used + Missing(first), second)
    decreases |first|
  {
    if first == [] {
      assert first + second == second;
    } else {
      var next := if first[0].Some? then used else used + 1;
      assert (first + second)[1..] == first[1..] + second && (first + second)[0] == first[0];
      AssignAppends(prefix, next, first[1..], second);
      AssignUnfolds(prefix, used, first);
      AssignUnfolds(prefix, used, first + second);
    }
  }

  lemma AssignUnfolds(prefix: string, used: nat, supplied: seq<Option<string>>)
    requires supplied != []
    ensures Assign(prefix, used, supplied) ==
            [supplied[0].GetOr(Print(prefix, used + 1))] +
            Assign(prefix, if supplied[0].Some? then used else used + 1, supplied[1..])
  {
  }

  lemma {:induction false} MissingAppends(first: seq<Option<string>>, second: seq<Option<string>>)
    ensures Missing(first + second) == Missing(first) + Missing(second)
  {
    if first == [] {
      assert first + second == second;
    } else {
      assert (first + second)[1..] == first[1..] + second && (first + second)[0] == first[0];
      MissingAppends(first[1..], second);
    }
  }

  /** Whether numbering makes up a code. */
  ghost predicate MakesUp(prefix: string, used: nat, supplied: seq<Option<string>>, code: string) {
    exists i :: 0 <= i < |supplied| && supplied[i].None? && Assign(prefix, used, supplied)[i] == code
  }

  lemma MakesUpStep(prefix: string, used: nat, supplied: seq<Option<string>>, code: string)
    requires supplied != []
    ensures supplied[0].Some? ==> (MakesUp(prefix, used, supplied, code) <==> MakesUp(prefix, used, supplied[1..], code))
    ensures supplied[0].None? ==>
              (MakesUp(prefix, used, supplied, code) <==>
               code == Print(prefix, used + 1) || MakesUp(prefix, used + 1, supplied[1..], code))
  {
    var next := if supplied[0].Some? then used else used + 1;
    var codes, rest := Assign(prefix, used, supplied), Assign(prefix, next, supplied[1..]);
    assert forall i :: 0 <= i < |rest| ==> codes[i + 1] == rest[i] && supplied[i + 1] == supplied[1..][i];
    if i :| 0 <= i < |supplied| && supplied[i].None? && codes[i] == code && (i > 0 || supplied[0].Some?) {
      assert supplied[1..][i - 1].None? && rest[i - 1] == code;
    }
    if i :| 0 <= i < |rest| && supplied[1..][i].None? && rest[i] == code {
      assert supplied[i + 1].None? && codes[i + 1] == code;
    }
  }

  /** The codes made up are exactly the printed numbers that follow the ones in use, one for each missing code. */
  lemma {:induction false} MadeUpExactly(prefix: string, used: nat, supplied: seq<Option<string>>, code: string)
    ensures MakesUp(prefix, used, supplied, code) <==>
            exists n: nat :: used < n <= used + Missing(supplied) && code == Print(prefix, n)
    decreases |supplied|
  {
    if supplied == [] {
    } else if supplied[0].Some? {
      MakesUpStep(prefix, used, supplied, code);
      MadeUpExactly(prefix, used, supplied[1..], code);
    } else {
      MakesUpStep(prefix, used, supplied, code);
      MadeUpExactly(prefix, used + 1, supplied[1..], code);
    }
  }

  /** Read off the code itself: it is made up exactly when it is printed the way numbers are, and its number is
      one of those that follow. */
  lemma MadeUpNumber(prefix: string, used: nat, supplied: seq<Option<string>>, code: string)
    requires WellFormed(prefix, code)
    ensures MakesUp(prefix, used, supplied, code) <==>
            used < Number(prefix, code) <= used + Missing(supplied) && code == Print(prefix, Number(prefix, code))
  {
    MadeUpExactly(prefix, used, supplied, code);
    if n: nat :| used < n <= used + Missing(supplied) && code == Print(prefix, n) {
      PrintedNumberReadsBack(prefix, n);
    }
  }

  lemma AssignOne(prefix: string, used: nat, code: Option<string>)
    ensures Missing([code]) == if code.None? then 1 else 0
    ensures Assign(prefix, used, [code]) == [code.GetOr(Print(prefix, used + 1))]
  {
    assert [code][1..] == [];
  }

  /** One step of the numbering, for a loop that goes through the codes in order. */
  lemma AssignStep(prefix: string, used: nat, supplied: seq<Option<string>>, codes: seq<string>, i: nat)
    requires i < |supplied| && |codes| == |supplied| && codes[i..] == Assign(prefix, used, supplied[i..])
    ensures codes[i] == supplied[i].GetOr(Print(prefix, used + 1))
    ensures codes[i + 1..] == Assign(prefix, if supplied[i].Some? then used else used + 1, supplied[i + 1..])
  {
    assert supplied[i..][0] == supplied[i] && supplied[i..][1..] == supplied[i + 1..];
    assert codes[i] == codes[i..][0] && codes[i + 1..] == codes[i..][1..];
  }

  /** Every code is the supplied one or a well-formed new one numbered above everything in use. */
  lemma {:induction false} AssignedCodes(prefix: string, used: nat, supplied: seq<Option<string>>)
    ensures forall i :: 0 <= i < |supplied| ==>
              var code := Assign(prefix, used, supplied)[i];
              if supplied[i].Some? then code == supplied[i].value
              else WellFormed(prefix, code) && Number(prefix, code) > used
    decreases |supplied|
  {
    if supplied == [] {
    } else {
      var next := if supplied[0].Some? then used else used + 1;
      AssignedCodes(prefix, next, supplied[1..]);
      PrintedNumberReadsBack(prefix, used + 1);
      forall i | 0 <= i < |supplied|
        ensures var code := Assign(prefix, used, supplied)[i];
                if supplied[i].Some? then code == supplied[i].value
                else WellFormed(prefix, code) && Number(prefix, code) > used
      {
        if i > 0 {
          assert supplied[i] == supplied[1..][i - 1];
          assert Assign(prefix, used, supplied)[i] == Assign(prefix, next, supplied[1..])[i - 1];
        }
      }
    }
  }

  /** New codes never meet each other, nor any supplied or used code. */
  lemma {:induction false} AssignedCodesDistinct(prefix: string, used: nat, supplied: seq<Option<string>>)
    requires forall i :: 0 <= i < |supplied| && supplied[i].Some? ==>
               WellFormed(prefix, supplied[i].value) && Number(prefix, supplied[i].value) <= used
    requires forall i, j :: 0 <= i < j < |supplied| && supplied[i].Some? ==> supplied[i] != supplied[j]
    ensures Distinct(Assign(prefix, used, supplied)) && AllWellFormed(prefix, Assign(prefix, used, supplied))
    decreases |supplied|
  {
    AssignedCodes(prefix, used, supplied);
    if supplied == [] {
    } else {
      var next := if supplied[0].Some? then used else used + 1;
      AssignedCodesDistinct(prefix, next, supplied[1..]);
      AssignedCodes(prefix, next, supplied[1..]);
      PrintedNumberReadsBack(prefix, used + 1);
      var codes, rest := Assign(prefix, used, supplied), Assign(prefix, next, supplied[1..]);
      forall j | 0 <= j < |rest| ensures codes[0] != rest[j] {
        assert supplied[1..][j] == supplied[j + 1];
      }
    }
  }
}
