/**
 * `uriIsSane()`: the guard in front of `save()` and of the load in
 * `showOpenOrLoad()`. An `android.net.Uri` reports a `null` scheme for a
 * relative reference and a `null` path for an opaque URI such as
 * `file:notes.txt`; both are modelled as `None`.
 */
module Uris {
  import opened Wrappers

  datatype Uri = Uri(scheme: Option<string>, path: Option<string>)

  /**
   * `Character.toUpperCase` on the characters that matter for comparing with
   * `"file"`: the ASCII letters and the dotless i (U+0131).
   */
  function UpperCase(c: char): char {
    if 'a' <= c <= 'z' then (c as int - 32) as char
    else if c == '\U{0131}' then 'I'
    else c
  }

  /**
   * `Character.toLowerCase` on the characters that matter for comparing with
   * `"file"`: the ASCII letters and the dotted capital I (U+0130).
   */
  function LowerCase(c: char): char {
    if 'A' <= c <= 'Z' then (c as int + 32) as char
    else if c == '\U{0130}' then 'i'
    else c
  }

  /** The per-character test of `String.equalsIgnoreCase`. */
  predicate CharEqualsIgnoreCase(a: char, b: char) {
    a == b || UpperCase(a) == UpperCase(b) || LowerCase(UpperCase(a)) == LowerCase(UpperCase(b))
  }

  predicate EqualsIgnoreCase(a: string, b: string) {
    |a| == |b| && forall i :: 0 <= i < |a| ==> CharEqualsIgnoreCase(a[i], b[i])
  }

  /**
   * The schemes `equalsIgnoreCase("file")` accepts: any mix of cases of
   * `file`, where the `i` may also be the dotless `ı` or the dotted `İ`.
   */
  lemma FileSchemeSpellings(s: string)
    ensures EqualsIgnoreCase(s, "file") <==>
      && |s| == 4
      && (s[0] == 'f' || s[0] == 'F')
      && (s[1] == 'i' || s[1] == 'I' || s[1] == '\U{0131}' || s[1] == '\U{0130}')
      && (s[2] == 'l' || s[2] == 'L')
      && (s[3] == 'e' || s[3] == 'E')
  {
    if |s| == 4 {
      assert CharEqualsIgnoreCase(s[0], 'f') <==> s[0] == 'f' || s[0] == 'F';
      assert CharEqualsIgnoreCase(s[1], 'i') <==> s[1] == 'i' || s[1] == 'I' || s[1] == '\U{0131}' || s[1] == '\U{0130}';
      assert CharEqualsIgnoreCase(s[2], 'l') <==> s[2] == 'l' || s[2] == 'L';
      assert CharEqualsIgnoreCase(s[3], 'e') <==> s[3] == 'e' || s[3] == 'E';
      assert "file"[0] == 'f' && "file"[1] == 'i' && "file"[2] == 'l' && "file"[3] == 'e';
    }
  }

  /**
   * `uriIsSane()` as written: `None` stands for the `NullPointerException`
   * that `getScheme().equalsIgnoreCase(...)` or `getPath().equals("")`
   * throws when the scheme or the path is `null`.
   */
  function UriIsSaneAsWritten(u: Option<Uri>): (r: Option<bool>)
    ensures r.None? <==> u.Some? && (u.value.scheme.None? ||
                           (EqualsIgnoreCase(u.value.scheme.value, "file") && u.value.path.None?))
    ensures r == Some(true) ==> u.Some? && u.value.path.Some? && u.value.path.value != []
  {
    if u.None? then Some(false)
    else if u.value.scheme.None? then None
    else if !EqualsIgnoreCase(u.value.scheme.value, "file") then Some(false)
    else if u.value.path.None? then None
    else Some(u.value.path.value != "")
  }

  /**
   * A relative reference (no scheme) and an opaque `file:` URI (no path) make
   * the guard throw instead of answering `false`.
   */
  lemma NullPartsThrow(name: string)
    ensures UriIsSaneAsWritten(Some(Uri(None, Some(name)))) == None
    ensures UriIsSaneAsWritten(Some(Uri(Some("file"), None))) == None
  {
    FileSchemeSpellings("file");
  }

  /**
   * The guard with a missing scheme or path counted as not sane. It holds
   * exactly when there is a URI, its scheme equals `"file"` ignoring case
   * and its path is non-empty, and it agrees with the code as written
   * wherever that does not throw.
   */
  function UriIsSane(u: Option<Uri>): (r: bool)
    ensures r <==> u.Some? && u.value.scheme.Some? && EqualsIgnoreCase(u.value.scheme.value, "file")
                   && u.value.path.Some? && u.value.path.value != []
    ensures UriIsSaneAsWritten(u).Some? ==> r == UriIsSaneAsWritten(u).value
    ensures UriIsSaneAsWritten(u).None? ==> !r
  {
    match UriIsSaneAsWritten(u)
    case Some(b) => b
    case None => false
  }
}
