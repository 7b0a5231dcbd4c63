/** The import-from-URL dialog: the cycle of progress messages shown
    while an import runs, and the state it keeps (the URL typed, the
    import flag and the error text). The submit handler awaits `onSubmit`;
    it is split at that await into the part before and the part after. */
module ImportFromUrlModal {
  import opened Js
  import opened Text

  // ---------------------------------------------------------------------
  // Progress messages

  const LoadingMessages: seq<string> := [
    "Scraping initiated...",
    "Analyzing page structure...",
    "Extracting relevant data...",
    "Parsing data into records...",
    "Finalizing import...",
    "Almost there..."]

  /** `list.indexOf(x)`: the first position of `x`, or -1. */
  function IndexOf(list: seq<string>, x: string): (i: int)
    ensures -1 <= i < |list|
    ensures i >= 0 ==> list[i] == x && forall j :: 0 <= j < i ==> list[j] != x
  {
    if list == [] then -1
    else if list[0] == x then 0
    else
      var i := IndexOf(list[1..], x);
      if i == -1 then -1 else i + 1
  }

  /** `indexOf` gives -1 exactly for a text that is not in the list. */
  lemma {:induction false} IndexOfAbsent(list: seq<string>, x: string)
    ensures IndexOf(list, x) == -1 <==> x !in list
  {
    if list != [] && list[0] != x {
      IndexOfAbsent(list[1..], x);
      assert list == [list[0]] + list[1..];
    }
  }

  /** The entry after `prev` in a cycle through `list`: the one at the
      next position, wrapping round; a text that is not in the list steps
      to the first entry. */
  function NextIn(list: seq<string>, prev: string): string
    requires |list| > 0
  {
    var next := IndexOf(list, prev) + 1;
    list[if next == |list| then 0 else next]
  }

  /** The step is the source's `(indexOf(prev) + 1) % length`. */
  lemma NextInIsModulo(list: seq<string>, prev: string)
    requires |list| > 0
    ensures NextIn(list, prev) == list[(IndexOf(list, prev) + 1) % |list|]
  {
    var next := IndexOf(list, prev) + 1;
    if next < |list| {
      ModSmall(next, |list|);
    } else {
      ModSelf(next);
    }
  }

  /** The progress message after `prev`. */
  function NextMessage(prev: string): (r: string)
    ensures r in LoadingMessages
  {
    NextIn(LoadingMessages, prev)
  }

  predicate Distinct(list: seq<string>) {
    forall i, j :: 0 <= i < j < |list| ==> list[i] != list[j]
  }

  lemma MessagesDistinct()
    ensures Distinct(LoadingMessages)
  {
    var m := LoadingMessages;
    assert m[0][0] == 'S' && m[1][0] == 'A' && m[2][0] == 'E' && m[3][0] == 'P' && m[4][0] == 'F' && m[5][0] == 'A';
    assert |m[1]| != |m[5]|;
  }

  lemma ModSmall(a: int, m: int)
    requires 0 <= a < m
    ensures a % m == a
  {
  }

  /** In a list without repeats each entry is followed by the next one, the
      last by the first. */
  lemma NextInSteps(list: seq<string>, i: nat)
    requires Distinct(list) && i < |list|
    ensures i + 1 < |list| ==> NextIn(list, list[i]) == list[i + 1]
    ensures i + 1 == |list| ==> NextIn(list, list[i]) == list[0]
  {
    IndexOfDistinct(list, i);
  }

  lemma ModSelf(m: int)
    requires 0 < m
    ensures m % m == 0
  {
  }

  /** Without repeats, the position `indexOf` finds is the entry's own. */
  lemma IndexOfDistinct(list: seq<string>, i: nat)
    requires Distinct(list) && i < |list|
    ensures IndexOf(list, list[i]) == i
  {
    var j := IndexOf(list, list[i]);
    IndexOfAbsent(list, list[i]);
    assert list[i] in list;
    assert j >= 0 && list[j] == list[i];
  }

  /** Each message is followed by the next one in the list. */
  lemma NextMessageSteps(i: nat)
    requires i + 1 < |LoadingMessages|
    ensures NextMessage(LoadingMessages[i]) == LoadingMessages[i + 1]
  {
    MessagesDistinct();
    NextInSteps(LoadingMessages, i);
  }

  /** After the last message comes the first. */
  lemma NextAfterLast()
    ensures NextMessage(LoadingMessages[|LoadingMessages| - 1]) == LoadingMessages[0]
  {
    MessagesDistinct();
    NextInSteps(LoadingMessages, |LoadingMessages| - 1);
  }

  /** Any other text steps to the first message. */
  lemma NextOfUnknown(prev: string)
    requires prev !in LoadingMessages
    ensures NextMessage(prev) == LoadingMessages[0]
  {
    IndexOfAbsent(LoadingMessages, prev);
  }

  /** The entry reached after `n` steps of the cycle. */
  function Advance(list: seq<string>, m: string, n: nat): string
    requires |list| > 0
    decreases n
  {
    if n == 0 then m else Advance(list, NextIn(list, m), n - 1)
  }

  lemma {:induction false} AdvanceSplit(list: seq<string>, m: string, a: nat, b: nat, n: nat)
    requires |list| > 0 && a + b == n
    ensures Advance(list, m, n) == Advance(list, Advance(list, m, a), b)
    decreases a
  {
    if a > 0 {
      AdvanceSplit(list, NextIn(list, m), a - 1, b, n - 1);
    }
  }

  /** Before the end of the list, `n` steps move `n` places on. */
  lemma {:induction false} AdvanceWithin(list: seq<string>, i: nat, n: nat, j: nat)
    requires Distinct(list) && i + n == j < |list|
    ensures Advance(list, list[i], n) == list[j]
    decreases n
  {
    if n > 0 {
      NextInSteps(list, i);
      AdvanceWithin(list, i + 1, n - 1, j);
    }
  }

  /** From the last entry, one more step goes round to the first. */
  lemma AdvanceFromLast(list: seq<string>, n: nat, n1: nat)
    requires Distinct(list) && |list| > 0 && n1 == n + 1
    ensures Advance(list, list[|list| - 1], n1) == Advance(list, list[0], n)
  {
    NextInSteps(list, |list| - 1);
  }

  /** A full round of the cycle comes back to where it started. */
  lemma FullRound(list: seq<string>, i: nat)
    requires Distinct(list) && i < |list|
    ensures Advance(list, list[i], |list|) == list[i]
  {
    var n := |list|;
    var toLast: nat := n - 1 - i;
    var rest: nat := i + 1;
    AdvanceSplit(list, list[i], toLast, rest, n);
    AdvanceWithin(list, i, toLast, n - 1);
    AdvanceFromLast(list, i, rest);
    AdvanceWithin(list, 0, i, i);
  }

  /** Six ticks of the interval bring every message back. */
  lemma SixTicksCycle(m: string)
    requires m in LoadingMessages
    ensures Advance(LoadingMessages, m, |LoadingMessages|) == m
  {
    MessagesDistinct();
    var i :| 0 <= i < |LoadingMessages| && LoadingMessages[i] == m;
    FullRound(LoadingMessages, i);
  }

  // ---------------------------------------------------------------------
  // The dialog state

  const InvalidUrlMessage := "Please enter a valid URL (e.g., https://...)."
  const ImportFailedMessage :=
    "An error occurred during import. The URL may be unsupported or the site may be blocking requests."

  /** How the `onSubmit` promise settles. */
  datatype ImportOutcome = Imported | ImportRejected

  /** The check before an import: a non-empty URL that starts with "http",
      compared with case. */
  predicate AcceptedUrl(url: string) {
    url != "" && StartsWith(url, "http")
  }

  class ImportDialog {
    var url: string
    var isImporting: bool
    var error: Option<string>
    var loadingMessage: string
    /** The URLs handed to `onSubmit`, in order. */
    var imports: seq<string>
    /** How often `onClose` was called. */
    var closes: nat

    /** Every URL handed on passed the check, and a progress message is shown. */
    predicate Valid()
      reads this
    {
      && (forall i :: 0 <= i < |imports| ==> AcceptedUrl(imports[i]))
      && loadingMessage in LoadingMessages
    }

    constructor()
      ensures Valid()
      ensures url == "" && !isImporting && error == None && loadingMessage == LoadingMessages[0]
      ensures imports == [] && closes == 0
    {
      url := "";
      isImporting := false;
      error := None;
      loadingMessage := LoadingMessages[0];
      imports := [];
      closes := 0;
    }

    /** Typing in the URL field. */
    method HandleUrlChange(text: string)
      requires Valid()
      modifies this
      ensures Valid()
      ensures url == text
      ensures isImporting == old(isImporting) && error == old(error) && loadingMessage == old(loadingMessage)
      ensures imports == old(imports) && closes == old(closes)
    {
      url := text;
    }

    /** One tick of the 1.5 s interval, which runs only while importing. */
    method Tick()
      requires Valid()
      modifies this
      ensures Valid()
      ensures isImporting ==> loadingMessage == NextMessage(old(loadingMessage))
      ensures !isImporting ==> loadingMessage == old(loadingMessage)
      ensures url == old(url) && isImporting == old(isImporting) && error == old(error)
      ensures imports == old(imports) && closes == old(closes)
    {
      if isImporting {
        loadingMessage := NextMessage(loadingMessage);
      }
    }

    /** `handleSubmit` up to the await: a rejected URL only shows the error;
        an accepted one raises the import flag, clears the error and is
        handed on. `started` says whether the await was reached. */
    method SubmitStart() returns (started: bool)
      requires Valid()
      modifies this
      ensures Valid()
      ensures started <==> AcceptedUrl(old(url))
      ensures !started ==> error == Some(InvalidUrlMessage) && isImporting == old(isImporting) && imports == old(imports)
      ensures started ==> isImporting && error == None && imports == old(imports) + [old(url)]
      ensures url == old(url) && loadingMessage == old(loadingMessage) && closes == old(closes)
    {
      if url == "" || !StartsWith(url, "http") {
        error := Some(InvalidUrlMessage);
        return false;
      }
      isImporting := true;
      error := None;
      imports := imports + [url];
      return true;
    }

    /** `handleSubmit` after the await: a rejection shows the import error,
        and the import flag goes down either way. */
    method SubmitSettled(outcome: ImportOutcome)
      requires Valid()
      modifies this
      ensures Valid()
      ensures !isImporting
      ensures outcome == ImportRejected ==> error == Some(ImportFailedMessage)
      ensures outcome == Imported ==> error == old(error)
      ensures url == old(url) && loadingMessage == old(loadingMessage)
      ensures imports == old(imports) && closes == old(closes)
    {
      if outcome == ImportRejected {
        error := Some(ImportFailedMessage);
      }
      isImporting := false;
    }

    /** `handleClose`: clears the URL, the error and the import flag, then
        tells the parent. The progress message is not reset. */
    method HandleClose()
      requires Valid()
      modifies this
      ensures Valid()
      ensures url == "" && error == None && !isImporting
      ensures loadingMessage == old(loadingMessage) && imports == old(imports) && closes == old(closes) + 1
    {
      url := "";
      error := None;
      isImporting := false;
      closes := closes + 1;
    }
  }
}
