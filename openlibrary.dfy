/** The Open Library cover probe (`src/lib/openLibrary.ts`): ISBN cleaning,
    the cover URL and the status check. The HTTP call is a parameter of the
    model. */
module OpenLibrary {
  import opened Wrappers
  import opened Text
  import Seqs

  /** `isbn.replace(/-/g, '').trim()`: no hyphen is left, and every other
      character that is not white space is kept as often as it occurred. */
  function CleanIsbn(isbn: string): (r: string)
    ensures '-' !in r
    ensures forall c :: c != '-' && !IsSpace(c) ==> multiset(r)[c] == multiset(isbn)[c]
  {
    var d := RemoveAll(isbn, '-');
    var r := Trim(d);
    forall c | c != '-' && !IsSpace(c) ensures multiset(r)[c] == multiset(isbn)[c] {
      TrimKeepsCount(d, c);
    }
    r
  }

  /** The cleaned ISBN is the input without its hyphens, in order, less the
      white space at its two ends; white space inside it stays. */
  lemma CleanIsbnSlice(isbn: string)
    ensures var d := Seqs.Filter(isbn, IsNot('-'));
      TrimmedAt(d, |d| - |TrimStart(d)|, CleanIsbn(isbn))
  {
    var d := RemoveAll(isbn, '-');
    assert CleanIsbn(isbn) == Trim(d);
    assert d == Seqs.Filter(isbn, IsNot('-'));
    TrimIsTrimmedAt(d);
  }

  const Prefix := "https://covers.openlibrary.org/b/isbn/"
  const Suffix := "-L.jpg?default=false"

  /** The large cover of an ISBN; `default=false` makes a missing cover a
      404 rather than a blank image. */
  function CoverUrl(cleanIsbn: string): string {
    Prefix + cleanIsbn + Suffix
  }

  /** The probed URL is the fixed prefix, the cleaned ISBN and the fixed
      suffix, so it carries no hyphen from the input. */
  lemma CoverUrlShape(isbn: string)
    ensures var url := CoverUrl(CleanIsbn(isbn));
      && |Prefix| + |Suffix| <= |url|
      && url[..|Prefix|] == Prefix
      && url[|url| - |Suffix|..] == Suffix
      && url[|Prefix|..|url| - |Suffix|] == CleanIsbn(isbn)
      && '-' !in url[|Prefix|..|url| - |Suffix|]
  {
    var url := CoverUrl(CleanIsbn(isbn));
    assert url[|Prefix|..|url| - |Suffix|] == CleanIsbn(isbn);
  }

  /** The outcome of the `GET`: an exception or a status code. */
  datatype Probe = Threw | Status(code: int)

  /** What `findOpenLibraryCover` sent, if anything, and what it returned. */
  datatype CoverLookup = CoverLookup(requested: Option<string>, cover: Option<string>)

  /** `findOpenLibraryCover(isbn)`. */
  function FindOpenLibraryCover(isbn: string, probe: string -> Probe): (r: CoverLookup)
    ensures isbn == "" ==> r == CoverLookup(None, None)
    ensures isbn != "" ==> r.requested == Some(CoverUrl(CleanIsbn(isbn)))
    ensures isbn != "" ==> (r.cover.Some? <==> probe(r.requested.value) == Status(200))
    ensures r.cover.Some? ==> r.cover == r.requested
  {
    if isbn == "" then CoverLookup(None, None)
    else
      var url := CoverUrl(CleanIsbn(isbn));
      match probe(url)
      case Status(200) => CoverLookup(Some(url), Some(url))
      case _ => CoverLookup(Some(url), None)
  }
}
