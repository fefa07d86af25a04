/**
 * The cookie lookups of the front end. header.js and profile-edit.js share one getCookie,
 * which decodes the value it finds with decodeURIComponent; login.js has a second one,
 * window.getCookie, which returns the raw text. Both split document.cookie on ';', trim
 * each piece and take the first trimmed piece that starts with name + '='.
 */
module Cookies {
  import opened Wrappers
  import opened Text

  /** A trimmed piece of document.cookie is the entry of name when it starts with name + '='. */
  predicate IsEntry(piece: string, name: string) {
    StartsWith(piece, name + "=")
  }

  /** The text after name + '=' in an entry of name. */
  function EntryValue(piece: string, name: string): string
    requires IsEntry(piece, name)
  {
    piece[|name| + 1..]
  }

  /** The pieces, each trimmed (cookies[i].trim()). */
  function TrimAll(parts: seq<string>): (r: seq<string>)
    ensures |r| == |parts|
    ensures forall i | 0 <= i < |parts| :: r[i] == JsTrim(parts[i])
  {
    seq(|parts|, i requires 0 <= i < |parts| => JsTrim(parts[i]))
  }

  /** The cookie pieces getCookie looks through: document.cookie split on ';' and trimmed. */
  function Pieces(documentCookie: string): seq<string> {
    TrimAll(Split(documentCookie, ';'))
  }

  /** The position of the first entry of name, or None when there is none. */
  function FirstEntry(pieces: seq<string>, name: string): (r: Option<nat>)
    ensures r.Some? ==> r.value < |pieces| && IsEntry(pieces[r.value], name)
    ensures r.Some? ==> forall j | 0 <= j < r.value :: !IsEntry(pieces[j], name)
    ensures r.None? ==> forall i | 0 <= i < |pieces| :: !IsEntry(pieces[i], name)
    decreases |pieces|
  {
    if pieces == [] then None
    else if IsEntry(pieces[0], name) then Some(0)
    else
      var rest := FirstEntry(pieces[1..], name);
      assert forall i | 1 <= i < |pieces| :: pieces[i] == pieces[1..][i - 1];
      if rest.Some? then Some(rest.value + 1) else None
  }

  /** The value of the first entry of name. */
  function FindEntry(pieces: seq<string>, name: string): Option<string> {
    match FirstEntry(pieces, name)
    case None => None
    case Some(i) => Some(EntryValue(pieces[i], name))
  }

  /** An entry with no entry of the same name before it is the one the lookup reads. */
  lemma FindEntryAt(pieces: seq<string>, name: string, i: nat)
    requires i < |pieces| && IsEntry(pieces[i], name)
    requires forall j | 0 <= j < i :: !IsEntry(pieces[j], name)
    ensures FirstEntry(pieces, name) == Some(i)
    ensures FindEntry(pieces, name) == Some(EntryValue(pieces[i], name))
  {
  }

  /** Without an entry of name the lookup finds nothing. */
  lemma FindEntryNone(pieces: seq<string>, name: string)
    requires forall j | 0 <= j < |pieces| :: !IsEntry(pieces[j], name)
    ensures FindEntry(pieces, name) == None
  {
  }

  /**
   * The tests the two getCookie functions apply to a trimmed piece,
   * substring(0, name.length + 1) === name + '=' and indexOf(name + '=') === 0, both
   * say that it is an entry of name, and substring(name.length + 1) is then its value.
   */
  lemma PieceTest(cookie: string, name: string)
    ensures (JsSubstring(cookie, 0, |name| + 1) == name + "=") == IsEntry(cookie, name)
    ensures (IndexOf(cookie, name + "=") == 0) == IsEntry(cookie, name)
    ensures IsEntry(cookie, name) ==> JsSubstring(cookie, |name| + 1, |cookie|) == EntryValue(cookie, name)
  {
    SubstringPrefix(cookie, name + "=");
    IndexOfZero(cookie, name + "=");
    if IsEntry(cookie, name) {
      SubstringSuffix(cookie, |name| + 1);
    }
  }

  /** The lookup of window.getCookie in login.js: the raw text of the first entry. */
  function RawCookie(documentCookie: string, name: string): (r: Option<string>)
    ensures var p := Pieces(documentCookie);
      r.None? <==> forall i | 0 <= i < |p| :: !IsEntry(p[i], name)
    ensures var p := Pieces(documentCookie);
      r.Some? ==> exists i | 0 <= i < |p| ::
        && IsEntry(p[i], name) && r.value == EntryValue(p[i], name)
        && forall j | 0 <= j < i :: !IsEntry(p[j], name)
  {
    FindEntry(Pieces(documentCookie), name)
  }

  /**
   * A loop over the split pieces that trims each one finds the first entry of name: when the
   * i-th trimmed piece is the first entry, the raw lookup is its value.
   */
  lemma RawCookieAt(documentCookie: string, name: string, i: nat)
    requires i < |Split(documentCookie, ';')|
    requires IsEntry(JsTrim(Split(documentCookie, ';')[i]), name)
    requires forall j | 0 <= j < i :: !IsEntry(JsTrim(Split(documentCookie, ';')[j]), name)
    ensures RawCookie(documentCookie, name) == Some(EntryValue(JsTrim(Split(documentCookie, ';')[i]), name))
  {
    FindEntryAt(Pieces(documentCookie), name, i);
  }

  /** A loop that finds no entry in the next trimmed piece has seen no entry one piece further. */
  lemma MissNext(cookies: seq<string>, name: string, i: nat)
    requires i < |cookies|
    requires forall j | 0 <= j < i :: !IsEntry(JsTrim(cookies[j]), name)
    requires !IsEntry(JsTrim(cookies[i]), name)
    ensures forall j | 0 <= j < i + 1 :: !IsEntry(JsTrim(cookies[j]), name)
  {
  }

  /** When no trimmed piece is an entry of name, the raw lookup finds nothing. */
  lemma RawCookieNone(documentCookie: string, name: string)
    requires forall j | 0 <= j < |Split(documentCookie, ';')| :: !IsEntry(JsTrim(Split(documentCookie, ';')[j]), name)
    ensures RawCookie(documentCookie, name) == None
  {
    FindEntryNone(Pieces(documentCookie), name);
  }

  /** The outcome of the decoding getCookie: a value, null, or the URIError it lets escape. */
  datatype CookieValue = Found(value: string) | Null | DecodeError

  /**
   * The lookup of getCookie in header.js and profile-edit.js: null for an empty cookie
   * string or no entry, otherwise decode applied to the raw text of the first entry,
   * where decode returns None when decodeURIComponent would throw.
   */
  function DecodedCookie(documentCookie: string, name: string, decode: string -> Option<string>): (r: CookieValue)
    ensures documentCookie == "" ==> r == Null
    ensures r == Null <==> documentCookie == "" || RawCookie(documentCookie, name).None?
    ensures r.Found? ==> decode(RawCookie(documentCookie, name).value) == Some(r.value)
    ensures r == DecodeError ==> decode(RawCookie(documentCookie, name).value).None?
  {
    if documentCookie == "" then Null
    else match RawCookie(documentCookie, name)
      case None => Null
      case Some(raw) =>
        match decode(raw)
        case None => DecodeError
        case Some(text) => Found(text)
  }

  /** Both lookups give null on an empty cookie string. */
  lemma EmptyCookieIsNull(name: string, decode: string -> Option<string>)
    ensures DecodedCookie("", name, decode) == Null
    ensures RawCookie("", name) == None
  {
    var parts := Split("", ';');
    assert parts == [""];
    var pieces := TrimAll(parts);
    assert pieces[0] == JsTrim("") == "";
    assert !IsEntry(pieces[0], name);
    FindEntryNone(pieces, name);
  }

  /** Where both find something, the decoding lookup is decode after the raw one. */
  lemma DecodedIsDecodeOfRaw(documentCookie: string, name: string, decode: string -> Option<string>)
    requires documentCookie != "" && RawCookie(documentCookie, name).Some?
    ensures DecodedCookie(documentCookie, name, decode) ==
      match decode(RawCookie(documentCookie, name).value)
      case None => DecodeError
      case Some(text) => Found(text)
  {
  }

  /**
   * A piece whose name merely starts with name (access_token2=... for access_token), or
   * is any other '='-free name, is not an entry of name.
   */
  lemma OtherNameIsNoEntry(name: string, other: string, value: string)
    requires '=' !in name && '=' !in other && name != other
    ensures !IsEntry(other + "=" + value, name)
  {
    var s := other + "=" + value;
    var p := name + "=";
    if |p| <= |s| {
      if |name| < |other| {
        assert s[|name|] == other[|name|] != '=' == p[|name|];
        assert s[..|p|][|name|] != p[|name|];
      } else if |name| > |other| {
        assert s[|other|] == '=' != name[|other|] == p[|other|];
        assert s[..|p|][|other|] != p[|other|];
      } else {
        assert s[..|name|] == other != name == p[..|name|];
        assert s[..|p|][..|name|] != p[..|name|];
      }
    }
  }

  /** The own entry of name is an entry of name and yields exactly the text after '='. */
  lemma OwnEntry(name: string, value: string)
    ensures IsEntry(name + "=" + value, name)
    ensures EntryValue(name + "=" + value, name) == value
  {
    var s := name + "=" + value;
    assert s[..|name| + 1] == name + "=";
    assert s[|name| + 1..] == value;
  }

  /** Spaces before a piece are trimmed away, so they do not change the lookup. */
  lemma LeadingSpaceIgnored(parts: seq<string>, i: nat)
    requires i < |parts|
    ensures TrimAll(parts[i := " " + parts[i]]) == TrimAll(parts)
  {
    TrimDropsLeadingSpace(' ', parts[i], JsWhitespace);
    assert JsTrim(" " + parts[i]) == JsTrim(parts[i]);
  }
}
