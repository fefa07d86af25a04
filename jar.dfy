/**
 * The cookie jar behind document.cookie, for one host and path '/': a cookie assignment
 * is parsed and stored as sections 5.2 and 5.3 of RFC 6265 describe, and reading
 * document.cookie gives the cookies in jar order as name=value, joined by "; ", as
 * section 5.4 of RFC 6265 says.
 */
module Jar {
  import opened Wrappers
  import opened Text
  import opened Cookies

  datatype Cookie = Cookie(name: string, value: string)

  /** The value of the first cookie with the given name. */
  function Lookup(jar: seq<Cookie>, name: string): (r: Option<string>)
    ensures r.Some? ==> Cookie(name, r.value) in jar
    ensures r.None? ==> forall i | 0 <= i < |jar| :: jar[i].name != name
    decreases |jar|
  {
    if jar == [] then None
    else if jar[0].name == name then Some(jar[0].value)
    else
      var rest := Lookup(jar[1..], name);
      assert forall i | 1 <= i < |jar| :: jar[i] == jar[1..][i - 1];
      rest
  }

  /**
   * Storing a cookie: a cookie of the same name is replaced where it stands (the new
   * one keeps the old one's creation time, so its place in the order), otherwise the
   * cookie is added last.
   */
  function Put(jar: seq<Cookie>, c: Cookie): (r: seq<Cookie>)
    ensures Lookup(r, c.name) == Some(c.value)
    ensures forall n | n != c.name :: Lookup(r, n) == Lookup(jar, n)
    ensures |r| == if Lookup(jar, c.name).Some? then |jar| else |jar| + 1
    ensures forall x | x in r :: x in jar || x == c
    decreases |jar|
  {
    if jar == [] then [c]
    else if jar[0].name == c.name then [c] + jar[1..]
    else
      var rest := Put(jar[1..], c);
      assert ([jar[0]] + rest)[1..] == rest;
      [jar[0]] + rest
  }

  /** Evicting every cookie of the given name. */
  function RemoveNamed(jar: seq<Cookie>, name: string): (r: seq<Cookie>)
    ensures Lookup(r, name) == None
    ensures forall n | n != name :: Lookup(r, n) == Lookup(jar, n)
    ensures forall c | c in r :: c in jar && c.name != name
    decreases |jar|
  {
    if jar == [] then []
    else
      var rest := RemoveNamed(jar[1..], name);
      assert forall c | c in jar[1..] :: c in jar;
      if jar[0].name == name then rest
      else
        assert ([jar[0]] + rest)[1..] == rest;
        [jar[0]] + rest
  }

  /** How one cookie appears in document.cookie. */
  function Entry(c: Cookie): string {
    c.name + "=" + c.value
  }

  function Entries(jar: seq<Cookie>): (r: seq<string>)
    ensures |r| == |jar|
    ensures forall i | 0 <= i < |jar| :: r[i] == Entry(jar[i])
  {
    seq(|jar|, i requires 0 <= i < |jar| => Entry(jar[i]))
  }

  /** The value document.cookie reads. */
  function CookieHeader(jar: seq<Cookie>): string {
    Join(Entries(jar), "; ")
  }

  /**
   * The text of a cookie assignment as login.js's setCookie and header.js's deleteCookie
   * write it: name=value, then the expiry date text and the path and SameSite
   * attributes, each after "; ".
   */
  function CookieAssignment(name: string, value: string, expiresUtc: string): string {
    Join([name + "=" + value, "expires=" + expiresUtc, "path=/", "SameSite=Lax"], "; ")
  }

  /**
   * The cookie a document.cookie assignment creates (section 5.2 of RFC 6265): the text
   * before the first ';' must hold an '='; the name is before it and the value after,
   * both with surrounding spaces and tabs removed; an empty name ignores the assignment.
   */
  function ParseCookiePair(assignment: string): (r: Option<Cookie>)
    ensures r.Some? ==> r.value.name != ""
  {
    var pair := Split(assignment, ';')[0];
    var k := IndexOf(pair, "=");
    if k < 0 then None
    else
      var name := Trim(pair[..k], HttpWhitespace);
      var value := Trim(pair[k + 1..], HttpWhitespace);
      if name == "" then None else Some(Cookie(name, value))
  }

  /** A cookie the scripts can read back unchanged: no separators in it and no spaces. */
  predicate Plain(c: Cookie) {
    && c.name != ""
    && ';' !in c.name && '=' !in c.name && ';' !in c.value
    && (forall i | 0 <= i < |c.name| :: !IsJsSpace(c.name[i]))
    && (forall i | 0 <= i < |c.value| :: !IsJsSpace(c.value[i]))
  }

  /** The first '=' of name=rest is the one after name when name holds none. */
  lemma IndexOfSeparator(name: string, rest: string)
    requires '=' !in name
    ensures IndexOf(name + "=" + rest, "=") == |name|
  {
    var s := name + "=" + rest;
    assert s[|name|..][..1] == "=";
    forall k | 0 <= k < |name| ensures !StartsWith(s[k..], "=") {
      assert s[k..][0] == name[k];
    }
  }

  /** A string without JavaScript whitespace has nothing to remove as HTTP whitespace. */
  lemma HttpTrimPlain(s: string)
    requires forall i | 0 <= i < |s| :: !IsJsSpace(s[i])
    ensures Trim(s, HttpWhitespace) == s
  {
    if s != [] {
      assert !IsSpace(HttpWhitespace, s[0]) by { assert !IsJsSpace(s[0]); }
      assert !IsSpace(HttpWhitespace, s[|s| - 1]) by { assert !IsJsSpace(s[|s| - 1]); }
    }
    TrimUnspaced(s, HttpWhitespace);
  }

  /** The browser reads back the name and value of an assignment of a plain cookie. */
  lemma ParseAssignment(c: Cookie, expiresUtc: string)
    requires Plain(c) && ';' !in expiresUtc
    ensures ParseCookiePair(CookieAssignment(c.name, c.value, expiresUtc)) == Some(c)
  {
    AssignmentPieces(c.name, c.value, expiresUtc);
    var pair := c.name + "=" + c.value;
    IndexOfSeparator(c.name, c.value);
    assert pair[..|c.name|] == c.name;
    assert pair[|c.name| + 1..] == c.value;
    HttpTrimPlain(c.name);
    HttpTrimPlain(c.value);
  }

  /**
   * The jar after an assignment whose expiry instant is expiresMs at time nowMs
   * (milliseconds): a malformed assignment changes nothing, an expired cookie evicts the
   * cookies of its name, any other is stored.
   */
  function AfterAssignment(jar: seq<Cookie>, assignment: string, expiresMs: int, nowMs: int): seq<Cookie> {
    match ParseCookiePair(assignment)
    case None => jar
    case Some(c) => if expiresMs <= nowMs then RemoveNamed(jar, c.name) else Put(jar, c)
  }

  /** Assigning a plain cookie that has not expired makes it the one its name reads. */
  lemma AssignStores(jar: seq<Cookie>, c: Cookie, expiresUtc: string, expiresMs: int, nowMs: int)
    requires Plain(c) && ';' !in expiresUtc && expiresMs > nowMs
    ensures AfterAssignment(jar, CookieAssignment(c.name, c.value, expiresUtc), expiresMs, nowMs) == Put(jar, c)
    ensures Lookup(AfterAssignment(jar, CookieAssignment(c.name, c.value, expiresUtc), expiresMs, nowMs), c.name)
         == Some(c.value)
  {
    ParseAssignment(c, expiresUtc);
  }

  /** Assigning an already expired cookie of a plain name evicts that name only. */
  lemma AssignExpires(jar: seq<Cookie>, name: string, expiresUtc: string, expiresMs: int, nowMs: int)
    requires Plain(Cookie(name, "")) && ';' !in expiresUtc && expiresMs <= nowMs
    ensures AfterAssignment(jar, CookieAssignment(name, "", expiresUtc), expiresMs, nowMs) == RemoveNamed(jar, name)
  {
    ParseAssignment(Cookie(name, ""), expiresUtc);
  }

  // ---------------------------------------------------------------------------
  // Reading document.cookie back through the lookups
  // ---------------------------------------------------------------------------

  function Padded(pieces: seq<string>): (r: seq<string>)
    ensures |r| == |pieces|
    ensures forall i | 0 <= i < |pieces| :: r[i] == " " + pieces[i]
  {
    seq(|pieces|, i requires 0 <= i < |pieces| => " " + pieces[i])
  }

  /** After the first entry, every piece of document.cookie keeps the space that followed ';'. */
  lemma {:induction false} SplitPaddedJoin(pieces: seq<string>)
    requires |pieces| >= 1
    requires forall i | 0 <= i < |pieces| :: ';' !in pieces[i]
    ensures Split(" " + Join(pieces, "; "), ';') == Padded(pieces)
    decreases |pieces|
  {
    if |pieces| == 1 {
      SplitSingle(" " + pieces[0], ';');
    } else {
      var rest := Join(pieces[1..], "; ");
      assert " " + Join(pieces, "; ") == (" " + pieces[0]) + ";" + (" " + rest);
      SplitCons(" " + pieces[0], " " + rest, ';');
      SplitPaddedJoin(pieces[1..]);
      assert Padded(pieces) == [" " + pieces[0]] + Padded(pieces[1..]);
    }
  }

  /** The first piece of document.cookie, then ';', then the following pieces after a space. */
  lemma JoinHeader(pieces: seq<string>)
    requires |pieces| >= 2
    ensures Join(pieces, "; ") == pieces[0] + [';'] + (" " + Join(pieces[1..], "; "))
  {
    var a, rest := pieces[0], Join(pieces[1..], "; ");
    assert Join(pieces, "; ") == a + "; " + rest;
    assert [';'] + " " == "; ";
    Regroup(a, [';'], " ", rest);
  }

  /** Concatenation regrouped around its two middle parts. */
  lemma Regroup(a: string, b: string, c: string, d: string)
    ensures a + (b + c) + d == a + b + (c + d)
  {
  }

  /** document.cookie split on ';': the first entry as it is, every later one after a space. */
  lemma SplitHeader(pieces: seq<string>)
    requires |pieces| >= 1
    requires forall i | 0 <= i < |pieces| :: ';' !in pieces[i]
    ensures Split(Join(pieces, "; "), ';') == [pieces[0]] + Padded(pieces[1..])
  {
    if |pieces| == 1 {
      SplitSingle(pieces[0], ';');
      assert Padded(pieces[1..]) == [];
    } else {
      var tail := pieces[1..];
      var padded := " " + Join(tail, "; ");
      assert ';' !in pieces[0];
      forall i | 0 <= i < |tail| ensures ';' !in tail[i] {
        assert tail[i] == pieces[i + 1];
      }
      JoinHeader(pieces);
      SplitCons(pieces[0], padded, ';');
      SplitPaddedJoin(tail);
    }
  }

  /** The pieces of an assignment whose name, value and date hold no ';'. */
  lemma AssignmentPieces(name: string, value: string, expiresUtc: string)
    requires ';' !in name && ';' !in value && ';' !in expiresUtc
    ensures Split(CookieAssignment(name, value, expiresUtc), ';')
         == [name + "=" + value] + Padded(["expires=" + expiresUtc, "path=/", "SameSite=Lax"])
  {
    var parts := [name + "=" + value, "expires=" + expiresUtc, "path=/", "SameSite=Lax"];
    assert forall i | 0 <= i < |parts| :: ';' !in parts[i];
    SplitHeader(parts);
    assert parts[1..] == ["expires=" + expiresUtc, "path=/", "SameSite=Lax"];
  }

  /** Neither end of the text is JavaScript whitespace. */
  predicate Unspaced(e: string) {
    e == [] || (!IsJsSpace(e[0]) && !IsJsSpace(e[|e| - 1]))
  }
}
