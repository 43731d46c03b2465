/**
 * The pure formatting helpers of `ui/display.py`: `truncate_text`,
 * `format_status` and `format_priority`.
 */
module Display {
  import opened Text
  import opened Models

  // ---------------------------------------------------------------------------
  // truncate_text

  /** Where the Python slice `s[:k]` of a string of length `n` ends; a negative `k` counts from the end. */
  function SliceEnd(n: nat, k: int): (e: nat)
    ensures e <= n
    ensures 0 <= k ==> e == if k < n then k else n
    ensures k < 0 ==> e == if n + k > 0 then n + k else 0
  {
    if k >= 0 then (if k < n then k else n)
    else if n + k > 0 then n + k else 0
  }

  /**
   * A text that fits is kept; a longer one is cut and marked with `..`. For a
   * width of at least two the result is exactly as wide as the column; below
   * two the slice end is negative, counts from the end of the text, and the
   * result is wider than asked.
   */
  function TruncateText(text: string, maxLength: int): (r: string)
    ensures |text| <= maxLength ==> r == text
    ensures |text| > maxLength ==> |r| >= 2 && r[..|r| - 2] <= text && r[|r| - 2..] == ".."
    ensures maxLength >= 2 ==> |r| <= maxLength
    ensures |text| > maxLength >= 2 ==> |r| == maxLength
  {
    if |text| <= maxLength then text
    else text[..SliceEnd(|text|, maxLength - 2)] + ".."
  }

  // ---------------------------------------------------------------------------
  // format_status and format_priority

  /** Status label for the tickets table: a fixed label for the four known statuses, else up to six upper-cased characters. */
  function FormatStatus(status: string): (r: string)
    ensures |r| <= 6
  {
    if status == StatusOpen then "ОТКР"
    else if status == StatusInProgress then "РАБОТА"
    else if status == StatusClosed then "ЗАКР"
    else if status == StatusResolved then "РЕШЕНА"
    else Take(Upper(status), 6)
  }

  /** Priority label for the tickets table: a fixed label for the three known priorities, else up to four upper-cased characters. */
  function FormatPriority(priority: string): (r: string)
    ensures |r| <= 4
  {
    if priority == "high" then "ВЫС"
    else if priority == "medium" then "СРЕД"
    else if priority == "low" then "НИЗ"
    else Take(Upper(priority), 4)
  }

  ghost predicate KnownStatus(s: string)
  {
    s == StatusOpen || s == StatusInProgress || s == StatusClosed || s == StatusResolved
  }

  /** The four known statuses get four different labels. */
  lemma StatusLabelsDistinct(a: string, b: string)
    requires KnownStatus(a) && KnownStatus(b)
    ensures FormatStatus(a) == FormatStatus(b) <==> a == b
  {
    assert "ОТКР"[0] != "РАБОТА"[0] && "ОТКР"[1] != "ЗАКР"[1] && "ОТКР"[0] != "РЕШЕНА"[0];
    assert "РАБОТА"[1] != "РЕШЕНА"[1] && |"РАБОТА"| != |"ЗАКР"| && |"ЗАКР"| != |"РЕШЕНА"|;
  }

  /** Any other status is shown as the upper-cased first six characters (fewer if it is shorter). */
  lemma OtherStatusShown(status: string)
    requires !KnownStatus(status)
    ensures var r := FormatStatus(status);
      && |r| == (if |status| < 6 then |status| else 6)
      && forall i :: 0 <= i < |r| ==> r[i] == UpperChar(status[i])
  {
    var r := FormatStatus(status);
    assert r <= Upper(status);
    forall i | 0 <= i < |r| ensures r[i] == UpperChar(status[i]) {
      assert r[i] == Upper(status)[i];
    }
  }

  /** Every priority stored by the core gets its own label. */
  lemma PriorityLabelsDistinct(p: Priority, q: Priority)
    ensures FormatPriority(PriorityName(p)) == FormatPriority(PriorityName(q)) <==> p == q
  {
    assert |"ВЫС"| != |"СРЕД"| && "ВЫС"[0] != "НИЗ"[0] && |"СРЕД"| != |"НИЗ"|;
  }

  /** Any other priority text is shown as its upper-cased first four characters. */
  lemma OtherPriorityShown(priority: string)
    requires ParsePriority(priority).None?
    ensures var r := FormatPriority(priority);
      && |r| == (if |priority| < 4 then |priority| else 4)
      && forall i :: 0 <= i < |r| ==> r[i] == UpperChar(priority[i])
  {
    var r := FormatPriority(priority);
    assert r <= Upper(priority);
    forall i | 0 <= i < |r| ensures r[i] == UpperChar(priority[i]) {
      assert r[i] == Upper(priority)[i];
    }
  }
}
