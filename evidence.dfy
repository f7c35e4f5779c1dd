/**
 * What the analyser learns from the outside world, handed to the model as plain values:
 * the WHOIS answer, the fetched page (already taken apart by the HTML parser and the
 * date searches), and the current year.
 */
module Evidence {
  import opened Text

  /**
   * The creation date of a WHOIS record, already turned into whole days before "now".
   * Registrars may answer with one date or with a list of dates.
   */
  datatype Creation =
    | NoCreationDate
    | CreatedAt(ageDays: int)
    | CreatedAtList(agesDays: seq<int>)

  /**
   * One WHOIS lookup. `org` and `name` are the empty string when the record has none
   * (the analyser tests them for truth, so absent and empty behave alike).
   * `WhoisFailed` stands for any exception raised by the lookup or the date arithmetic.
   */
  datatype Whois =
    | WhoisFailed
    | WhoisRecord(creation: Creation, org: string, name: string)

  /**
   * A page that was fetched with a success status.
   *   lastModified     the Last-Modified response header, if present
   *   dayFirstDates    matches of `\b\d{2}[./-]\d{2}[./-]\d{4}\b` in the page text, in text order
   *   yearFirstDates   matches of `\b\d{4}[./-]\d{2}[./-]\d{2}\b`
   *   monthWords       what `findall` returns for the genitive-month pattern: the month word only,
   *                    since that pattern has one group
   *   copyrightGroups  the two groups of each match of `©.*?(\d{4})|copyright.*?(\d{4})`
   *   navCount         number of nav, ul, ol and menu elements
   *   hrefs            the href of every anchor that has one, in document order
   *   formCount        number of form elements
   *   html             the response body
   *   generator        the content of the first `meta name="generator"` element, if any
   *   scriptSrcs       the src of every script element that has one, in document order
   */
  datatype Page = Page(
    lastModified: Option<string>,
    dayFirstDates: seq<string>,
    yearFirstDates: seq<string>,
    monthWords: seq<string>,
    copyrightGroups: seq<(string, string)>,
    navCount: nat,
    hrefs: seq<string>,
    formCount: nat,
    html: string,
    generator: Option<string>,
    scriptSrcs: seq<string>)

  /** The GET request: a page, or any request exception (connection, timeout, TLS, an error status). */
  datatype Fetch = FetchFailed | Fetched(page: Page)
}
