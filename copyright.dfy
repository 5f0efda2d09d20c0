/**
 * The footer fix-up: the first "2025" in the copyright text is replaced by the current year.
 */
module Copyright {

  import opened Optional
  import opened JsText

  const Placeholder: string := "2025"

  /** `text.includes('2025')` then `text.replace('2025', year)`: only the first occurrence is replaced. */
  function FixCopyright(text: string, year: int): (r: string)
    ensures (forall j :: !OccursAt(text, Placeholder, j)) ==> r == text
    ensures forall i: nat :: FirstOccurrence(text, Placeholder, i) ==>
              r == text[..i] + IntToString(year) + text[i + |Placeholder|..]
  {
    match IndexOf(text, Placeholder)
    case None => text
    case Some(i) => text[..i] + IntToString(year) + text[i + |Placeholder|..]
  }

  /** In the year 2025 the text is left as it is. */
  lemma SameYearKeepsText(text: string)
    ensures FixCopyright(text, 2025) == text
  {
    assert IntToString(2025) == Placeholder;
    match IndexOf(text, Placeholder)
    case None =>
    case Some(i) =>
      assert text[..i] + Placeholder + text[i + |Placeholder|..] == text;
  }

  /** The text before the first "2025" is kept and the year stands where it was. */
  lemma YearReplacesFirstPlaceholder(text: string, year: int, i: nat)
    requires FirstOccurrence(text, Placeholder, i)
    ensures FixCopyright(text, year)[..i] == text[..i]
    ensures OccursAt(FixCopyright(text, year), IntToString(year), i)
  {
    var r := FixCopyright(text, year);
    assert r == text[..i] + IntToString(year) + text[i + |Placeholder|..];
    assert r[i..i + |IntToString(year)|] == IntToString(year);
  }
}
