/**
 * The exceptions the crawler's page pipeline can raise, and the text
 * `str(err)` gives for each: this text is what ends up in `error.log`.
 */
module Errors {
  import opened Text

  datatype PyError =
    /**
     * `pycurl.error` raised by `perform`: `message` is the text `str(err)`
     * gives, that of its `(code, message)` argument tuple.
     */
    | CurlError(message: string)
    /**
     * `UnicodeEncodeError` from `url.encode("iso-8859-1")`: the unencodable
     * characters run from `start` (inclusive) to `end` (exclusive), and
     * `first` is the code point of the first of them.
     */
    | EncodeError(first: nat, start: nat, end: nat)
    /** `AttributeError`: the page has no `<title>` element. */
    | NoTitle
    /** `IndexError`: the title has fewer than two " - "-separated segments. */
    | TitleIndexError
    /** `KeyError`: the keywords `<meta>` tag has no `content` attribute. */
    | KeywordsKeyError
    /** The plain `Exception` raised by `mkdir_p` when the directory cannot be created. */
    | MkdirFailed
    /** `PermissionError` from `open(path, "w")`. */
    | PermissionDenied(path: string)
    /** Any error from reading `template.html`, with its message. */
    | TemplateUnreadable(message: string)
    /** `ET.ParseError` from parsing the sitemap, with its message. */
    | XmlParseError(message: string)

  /**
   * Python's `str(err)` for each error: the text a pycurl, template or XML
   * error carries passes through as it is, and a refused file names its path.
   */
  function Message(e: PyError): (m: string)
    ensures e.CurlError? ==> m == e.message
    ensures e.TemplateUnreadable? ==> m == e.message
    ensures e.XmlParseError? ==> m == e.message
    ensures e.PermissionDenied? ==> Contains(m, e.path)
  {
    match e
    case CurlError(m) => m
    case EncodeError(first, start, end) =>
      if end == start + 1 then
        "'latin-1' codec can't encode character '" + Escape(first) + "' in position "
        + Decimal(start) + ": ordinal not in range(256)"
      else
        "'latin-1' codec can't encode characters in position " + Decimal(start) + "-"
        + Decimal(if end > 0 then end - 1 else 0) + ": ordinal not in range(256)"
    case NoTitle => "'NoneType' object has no attribute 'text'"
    case TitleIndexError => "list index out of range"
    case KeywordsKeyError => "'content'"
    case MkdirFailed => "mkdir needs permission"
    case PermissionDenied(path) =>
      var head := "[Errno 13] Permission denied: '";
      assert MatchAt(head + path + "'", path, |head|) by {
        assert (head + path + "'")[|head|..|head| + |path|] == path;
      }
      head + path + "'"
    case TemplateUnreadable(m) => m
    case XmlParseError(m) => m
  }

  /** How Python's error text escapes a code point that latin-1 cannot encode. */
  function Escape(cp: nat): string
  {
    if cp <= 0xFFFF then "\\u" + Hex(cp, 4) else "\\U" + Hex(cp, 8)
  }

  /** Lower-case hexadecimal, left-padded with zeros to at least `width` digits. */
  function Hex(n: nat, width: nat): string
    decreases n + width
  {
    if n < 16 && width <= 1 then ["0123456789abcdef"[n]]
    else Hex(n / 16, if width > 0 then width - 1 else 0) + ["0123456789abcdef"[n % 16]]
  }
}
