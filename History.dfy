/**
 * Per-device scan history and the occurrence count used for duplicate
 * detection: `deviceHistories[device].FindAll(c => c == code).Count`
 * (MainWindow.xaml.cs:107).
 */
module History {

  /** How many entries of `history` are equal to `code`. */
  function Count(history: seq<string>, code: string): (n: nat)
    ensures n <= |history|
    ensures n == 0 <==> code !in history
  {
    if history == [] then 0
    else (if history[0] == code then 1 else 0) + Count(history[1..], code)
  }

  /** Appending one entry raises the count of that entry by one and leaves every other count alone. */
  lemma {:induction false} CountAppend(history: seq<string>, entry: string, code: string)
    ensures Count(history + [entry], code) == Count(history, code) + (if entry == code then 1 else 0)
  {
    if history == [] {
      assert history + [entry] == [entry];
    } else {
      assert (history + [entry])[1..] == history[1..] + [entry];
      CountAppend(history[1..], entry, code);
    }
  }

  /** The count is the multiplicity of `code` in the history seen as a multiset. */
  lemma {:induction false} CountIsMultiplicity(history: seq<string>, code: string)
    ensures Count(history, code) == multiset(history)[code]
  {
    if history != [] {
      assert history == [history[0]] + history[1..];
      assert multiset(history) == multiset{history[0]} + multiset(history[1..]);
      CountIsMultiplicity(history[1..], code);
    }
  }
}
