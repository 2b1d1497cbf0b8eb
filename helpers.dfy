/** The test-data helpers of the suite: a generator of enumerated labels
    and a predicate that tells whether a string is already trimmed. */
module MyHelpers {
  import opened Decimal
  import opened Trimming

  /** The labels `baseText + 1, baseText + 2, ..., baseText + n`, in slot
      order. */
  function Enumerated(n: nat, baseText: string): (r: seq<string>)
    ensures |r| == n
  {
    if n == 0 then [] else Enumerated(n - 1, baseText) + [baseText + NatToString(n)]
  }

  /** Slot `k` (counting from zero) holds the base text followed by the
      decimal form of `k + 1`. */
  lemma {:induction false} EnumeratedAt(n: nat, baseText: string, k: nat)
    requires k < n
    ensures Enumerated(n, baseText)[k] == baseText + NatToString(k + 1)
  {
    if k < n - 1 {
      EnumeratedAt(n - 1, baseText, k);
    }
  }

  /** Every label starts with the base text. */
  lemma EnumeratedHasPrefix(n: nat, baseText: string, k: nat)
    requires k < n
    ensures baseText <= Enumerated(n, baseText)[k]
  {
    EnumeratedAt(n, baseText, k);
  }

  /** The labels follow creation order: the first ends in 1, the last in the
      decimal form of `n`, and the number after the base text is one more in
      each slot than in the slot before it. */
  lemma EnumeratedOrder(n: nat, baseText: string)
    ensures n >= 1 ==> Enumerated(n, baseText)[0] == baseText + "1"
    ensures n >= 1 ==> Enumerated(n, baseText)[n - 1] == baseText + NatToString(n)
    ensures forall k :: 0 <= k < n ==>
      |baseText| <= |Enumerated(n, baseText)[k]|
      && AllDigits(Enumerated(n, baseText)[k][|baseText|..])
      && StringToNat(Enumerated(n, baseText)[k][|baseText|..]) == k + 1
  {
    if n >= 1 {
      EnumeratedAt(n, baseText, 0);
      EnumeratedAt(n, baseText, n - 1);
    }
    forall k | 0 <= k < n
      ensures |baseText| <= |Enumerated(n, baseText)[k]|
      ensures Enumerated(n, baseText)[k][|baseText|..] == NatToString(k + 1)
      ensures StringToNat(Enumerated(n, baseText)[k][|baseText|..]) == k + 1
    {
      EnumeratedAt(n, baseText, k);
      StringToNatOfNatToString(k + 1);
    }
  }

  /** No two slots hold the same label, so each generated item can be
      addressed by its text alone. */
  lemma EnumeratedDistinct(n: nat, baseText: string, i: nat, j: nat)
    requires i < n && j < n && i != j
    ensures Enumerated(n, baseText)[i] != Enumerated(n, baseText)[j]
  {
    EnumeratedAt(n, baseText, i);
    EnumeratedAt(n, baseText, j);
    var si, sj := Enumerated(n, baseText)[i], Enumerated(n, baseText)[j];
    assert si[|baseText|..] == NatToString(i + 1);
    assert sj[|baseText|..] == NatToString(j + 1);
    NatToStringInjective(i + 1, j + 1);
  }

  /** The five labels `Example1` to `Example5` that the bulk-completion
      scenario addresses one by one. */
  lemma EnumeratedExampleFive()
    ensures Enumerated(5, "Example")
         == ["Example1", "Example2", "Example3", "Example4", "Example5"]
  {
    var labels := ["Example1", "Example2", "Example3", "Example4", "Example5"];
    forall k | 0 <= k < 5
      ensures Enumerated(5, "Example")[k] == labels[k]
    {
      EnumeratedAt(5, "Example", k);
      assert NatToString(k + 1) == [DigitChar(k + 1)];
    }
  }

  /** Allocates an array of `numberOfElements` slots and fills slot `i - 1`
      with `baseText + i` for `i` from 1 up to `numberOfElements`. */
  method CreateArrayOfEnumeratedStrings(numberOfElements: nat, baseText: string)
    returns (returnArray: array<string>)
    ensures fresh(returnArray)
    ensures returnArray.Length == numberOfElements
    ensures forall k :: 0 <= k < numberOfElements ==>
      returnArray[k] == baseText + NatToString(k + 1)
    ensures returnArray[..] == Enumerated(numberOfElements, baseText)
  {
    returnArray := new string[numberOfElements];
    for i := 1 to numberOfElements + 1
      invariant forall k :: 0 <= k < i - 1 ==> returnArray[k] == baseText + NatToString(k + 1)
    {
      returnArray[i - 1] := baseText + NatToString(i);
    }
    forall k | 0 <= k < numberOfElements
      ensures returnArray[..][k] == Enumerated(numberOfElements, baseText)[k]
    {
      EnumeratedAt(numberOfElements, baseText, k);
    }
  }

  /** True exactly when `text` equals its trimmed form, which is the case
      when it is empty or neither its first nor its last character is
      whitespace. */
  function CheckStringHasBeenTrimmed(text: string): (r: bool)
    ensures r <==> text == [] || (!IsWs(text[0]) && !IsWs(text[|text| - 1]))
  {
    TrimFixedIff(text);
    text == Trim(text)
  }

  /** Whatever `Trim` returns passes the check. */
  lemma TrimPassesCheck(s: string)
    ensures CheckStringHasBeenTrimmed(Trim(s))
  {
    TrimIdempotent(s);
  }

  /** Whitespace inside the text does not affect the check; only its first
      and last characters do. */
  lemma CheckIgnoresInteriorWs(front: string, interior: string, back: string)
    requires front != [] && back != []
    ensures CheckStringHasBeenTrimmed(front + interior + back)
         == CheckStringHasBeenTrimmed(front + back)
  {
    var s, t := front + interior + back, front + back;
    assert s[0] == t[0] == front[0];
    assert s[|s| - 1] == t[|t| - 1] == back[|back| - 1];
  }

  /** Text that starts or ends with whitespace fails the check, and no
      amount of padding around already-trimmed text survives trimming. */
  lemma CheckRejectsPadding(lead: string, t: string, trail: string)
    requires AllWs(lead) && AllWs(trail) && HasNoSurroundingWs(t)
    requires lead != [] || trail != []
    ensures !CheckStringHasBeenTrimmed(lead + t + trail)
    ensures CheckStringHasBeenTrimmed(Trim(lead + t + trail))
  {
    var s := lead + t + trail;
    TrimRemovesPadding(lead, t, trail);
    if lead != [] {
      assert s[0] == lead[0];
    } else {
      assert s[|s| - 1] == trail[|trail| - 1];
    }
  }

  /** The input of the editing scenario padded in front with both spaces
      and tabs trims to its unpadded text. */
  lemma TrimEditingFixture()
    ensures Trim(" \t \tIpsum") == "Ipsum"
  {
    assert " \t \tIpsum" == " \t \t" + "Ipsum" + "";
    TrimRemovesPadding(" \t \t", "Ipsum", "");
  }

  /** The inputs of the creation scenario, plain or padded at either end,
      all trim to `test`; one lemma per input keeps each proof small. */
  lemma TrimCreationFixturePlain()
    ensures Trim("test") == "test"
  {
    assert "test" == "" + "test" + "";
    TrimRemovesPadding("", "test", "");
  }

  lemma TrimCreationFixtureLeading()
    ensures Trim(" test") == "test"
  {
    assert " test" == " " + "test" + "";
    TrimRemovesPadding(" ", "test", "");
  }

  lemma TrimCreationFixtureTrailing()
    ensures Trim("test ") == "test"
  {
    assert "test " == "" + "test" + " ";
    TrimRemovesPadding("", "test", " ");
  }

  lemma TrimCreationFixture()
    ensures Trim(" test ") == "test"
  {
    assert " test " == " " + "test" + " ";
    TrimRemovesPadding(" ", "test", " ");
  }

  lemma TrimCreationFixtureTrailingRun()
    ensures Trim("test    ") == "test"
  {
    assert "test    " == "" + "test" + "    ";
    TrimRemovesPadding("", "test", "    ");
  }
}
