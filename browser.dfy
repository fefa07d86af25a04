/**
 * The browser state the front-end scripts read and write, the cookie jar and the
 * localStorage map, and the proof that the scripts' cookie lookups read back from
 * document.cookie what the jar holds.
 */
module Browser {
  import opened Wrappers
  import opened Text
  import opened Cookies
  import opened Jar

  /** The entry of a plain cookie neither starts nor ends with JavaScript whitespace. */
  lemma EntryUnspaced(c: Cookie)
    requires Plain(c)
    ensures Unspaced(Entry(c))
  {
    var e := Entry(c);
    assert e[0] == c.name[0];
    if c.value == "" {
      assert e[|e| - 1] == '=';
    } else {
      assert e[|e| - 1] == c.value[|c.value| - 1];
    }
  }

  lemma PieceTrim(e: string)
    requires Unspaced(e)
    ensures JsTrim(e) == e
  {
    TrimUnspaced(e, JsWhitespace);
  }

  /** The space after a ';' is trimmed away again. */
  lemma PaddedPieceTrim(e: string)
    requires Unspaced(e)
    ensures JsTrim(" " + e) == e
  {
    PieceTrim(e);
    TrimDropsLeadingSpace(' ', e, JsWhitespace);
  }

  lemma PaddedPiecesTrim(es: seq<string>)
    requires forall i | 0 <= i < |es| :: Unspaced(es[i])
    ensures forall j | 0 <= j < |es| :: JsTrim(Padded(es)[j]) == es[j]
  {
    forall j | 0 <= j < |es| ensures JsTrim(Padded(es)[j]) == es[j] {
      PaddedPieceTrim(es[j]);
    }
  }

  /** Trimming each piece of first followed by rest gives es. */
  lemma TrimAllFixed(first: string, rest: seq<string>, es: seq<string>)
    requires |es| == |rest| + 1 && JsTrim(first) == es[0]
    requires forall j | 0 <= j < |rest| :: JsTrim(rest[j]) == es[j + 1]
    ensures TrimAll([first] + rest) == es
  {
  }

  /** Trimming the pieces of a split document.cookie undoes the padding. */
  lemma TrimPadded(es: seq<string>)
    requires |es| >= 1 && forall i | 0 <= i < |es| :: Unspaced(es[i])
    ensures TrimAll([es[0]] + Padded(es[1..])) == es
  {
    PieceTrim(es[0]);
    PaddedPiecesTrim(es[1..]);
    TrimAllFixed(es[0], Padded(es[1..]), es);
  }

  /** The entries of plain cookies hold no ';'. */
  lemma EntriesUnseparated(jar: seq<Cookie>)
    requires forall c | c in jar :: Plain(c)
    ensures forall i | 0 <= i < |jar| :: ';' !in Entries(jar)[i]
  {
    forall i | 0 <= i < |jar| ensures ';' !in Entries(jar)[i] {
      assert jar[i] in jar;
    }
  }

  /** The trimmed pieces of the document.cookie of plain cookies are their entries. */
  lemma PiecesOfHeader(jar: seq<Cookie>)
    requires jar != [] && forall c | c in jar :: Plain(c)
    ensures Pieces(CookieHeader(jar)) == Entries(jar)
  {
    var es := Entries(jar);
    EntriesUnseparated(jar);
    SplitHeader(es);
    forall i | 0 <= i < |jar| ensures Unspaced(es[i]) {
      assert jar[i] in jar;
      EntryUnspaced(jar[i]);
    }
    TrimPadded(es);
  }

  /** The lookup over the first piece or the rest. */
  lemma FindEntryCons(pieces: seq<string>, name: string)
    requires pieces != []
    ensures FindEntry(pieces, name) ==
      if IsEntry(pieces[0], name) then Some(EntryValue(pieces[0], name)) else FindEntry(pieces[1..], name)
  {
    if !IsEntry(pieces[0], name) {
      var rest := FirstEntry(pieces[1..], name);
      if rest.Some? {
        assert pieces[1..][rest.value] == pieces[rest.value + 1];
      }
    }
  }

  /** Over the entries of plain cookies, the lookup of a name without '=' is Lookup. */
  lemma {:induction false} FindEntryOfEntries(jar: seq<Cookie>, name: string)
    requires '=' !in name && forall c | c in jar :: Plain(c)
    ensures FindEntry(Entries(jar), name) == Lookup(jar, name)
    decreases |jar|
  {
    if jar == [] {
      FindEntryNone(Entries(jar), name);
    } else {
      var es := Entries(jar);
      FindEntryCons(es, name);
      assert es[1..] == Entries(jar[1..]);
      assert forall c | c in jar[1..] :: c in jar;
      FindEntryOfEntries(jar[1..], name);
      assert jar[0] in jar;
      if jar[0].name == name {
        OwnEntry(name, jar[0].value);
      } else {
        OtherNameIsNoEntry(name, jar[0].name, jar[0].value);
      }
    }
  }

  /**
   * login.js's getCookie reads back from document.cookie exactly what the jar holds for
   * a name without '=', when every cookie in the jar is plain.
   */
  lemma RawCookieReadsJar(jar: seq<Cookie>, name: string)
    requires '=' !in name && forall c | c in jar :: Plain(c)
    ensures RawCookie(CookieHeader(jar), name) == Lookup(jar, name)
  {
    if jar == [] {
      EmptyCookieIsNull(name, s => Some(s));
      assert CookieHeader(jar) == "";
    } else {
      PiecesOfHeader(jar);
      FindEntryOfEntries(jar, name);
    }
  }

  /**
   * The decoding getCookie gives null exactly when the jar has no cookie of the name,
   * and otherwise decode applied to its value.
   */
  lemma DecodedCookieReadsJar(jar: seq<Cookie>, name: string, decode: string -> Option<string>)
    requires '=' !in name && forall c | c in jar :: Plain(c)
    ensures Lookup(jar, name).None? ==> DecodedCookie(CookieHeader(jar), name, decode) == Null
    ensures Lookup(jar, name).Some? ==>
      DecodedCookie(CookieHeader(jar), name, decode) ==
        (match decode(Lookup(jar, name).value)
         case None => DecodeError
         case Some(text) => Found(text))
  {
    RawCookieReadsJar(jar, name);
    if jar != [] {
      var es := Entries(jar);
      assert es[0][|jar[0].name|] == '=';
      assert CookieHeader(jar) != "" by {
        if |jar| > 1 {
          assert CookieHeader(jar) == es[0] + "; " + Join(es[1..], "; ");
        }
      }
    }
  }

  // ---------------------------------------------------------------------------
  // The browser state the scripts update in place
  // ---------------------------------------------------------------------------

  class BrowserState {
    var jar: seq<Cookie>
    var storage: map<string, string>

    constructor (jar: seq<Cookie>, storage: map<string, string>)
      ensures this.jar == jar && this.storage == storage
    {
      this.jar := jar;
      this.storage := storage;
    }

    /** Reading document.cookie. */
    function DocumentCookie(): string
      reads this
    {
      CookieHeader(jar)
    }

    /** localStorage.getItem(key): null when the key is absent. */
    function GetItem(key: string): Option<string>
      reads this
    {
      if key in storage then Some(storage[key]) else None
    }

    /**
     * document.cookie = assignment, where expiresMs is the instant that the assignment's
     * expiry date text denotes and nowMs the browser's clock.
     */
    method AssignCookie(assignment: string, expiresMs: int, nowMs: int)
      modifies this
      ensures jar == AfterAssignment(old(jar), assignment, expiresMs, nowMs)
      ensures storage == old(storage)
    {
      var parsed := ParseCookiePair(assignment);
      match parsed {
        case None =>
        case Some(c) =>
          if expiresMs <= nowMs {
            jar := RemoveNamed(jar, c.name);
          } else {
            jar := Put(jar, c);
          }
      }
    }

    /** localStorage.setItem(key, value) */
    method SetItem(key: string, value: string)
      modifies this
      ensures storage == old(storage)[key := value]
      ensures jar == old(jar)
      ensures GetItem(key) == Some(value)
    {
      storage := storage[key := value];
    }

    /** localStorage.removeItem(key) */
    method RemoveItem(key: string)
      modifies this
      ensures storage == old(storage) - {key}
      ensures jar == old(jar)
      ensures GetItem(key) == None
    {
      storage := storage - {key};
    }
  }
}
