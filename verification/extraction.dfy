/**
  The resilient single-field read of `extract_data` (main.py:41-50). The
  rendered page is an oracle: for one field locator it reports whether the
  element is absent, what text it renders, or that the lookup raised (a
  timeout or any other browser error).
 */
module Extraction {
  import opened Options

  /** What one lookup of a field locator observes on the page. */
  datatype FieldRead =
    | Missing                  // the locator matches no element (`count() == 0`)
    | Rendered(text: string)   // the element exists and `inner_text` returned `text`
    | Fault                    // `count()` or `inner_text` raised

  /** The sentinel `extract_data` records when a field cannot be read. */
  const NotAvailable: string := "N/A"

  /** The value `extract_data` records for one read. */
  function FieldValue(read: FieldRead): string
  {
    if read.Rendered? then read.text else NotAvailable
  }

  /** `extract_data`: every path appends exactly one value, the rendered text when
      there is one and the sentinel otherwise; earlier entries are untouched. */
  function ExtractData(acc: seq<string>, read: FieldRead): (r: seq<string>)
    ensures |r| == |acc| + 1
    ensures r[..|acc|] == acc
    ensures read.Rendered? ==> r[|acc|] == read.text
    ensures !read.Rendered? ==> r[|acc|] == NotAvailable
  {
    acc + [FieldValue(read)]
  }

  /** A read guarded by `count() > 0` (lines 107, 110 and 122): an absent element
      reads as the empty string, a fault is raised to the caller (None). */
  function GuardedText(read: FieldRead): Option<string>
  {
    match read
    case Missing => Some("")
    case Rendered(text) => Some(text)
    case Fault => None
  }

  /** An unguarded `inner_text` (lines 113-115): an absent element makes the read
      wait out its timeout and raise, just like any other fault. */
  function UnguardedText(read: FieldRead): Option<string>
  {
    match read
    case Rendered(text) => Some(text)
    case Missing => None
    case Fault => None
  }
}
