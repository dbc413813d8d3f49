/**
 * Reading the bearer token out of the `Sec-WebSocket-Protocol` header, whose
 * value is a comma-separated list of subprotocol names (section 4.1 and
 * section 11.3.4 of RFC 6455).
 */
module Protocol {
  import opened Strings

  /** The header split on `,` with every part trimmed. */
  function TrimmedParts(header: string): (parts: seq<string>)
    ensures |parts| == |Split(header, ',')| >= 1
    ensures forall i :: 0 <= i < |parts| ==> parts[i] == Trim(Split(header, ',')[i])
    ensures forall i :: 0 <= i < |parts| ==> ',' !in parts[i] && IsTrimmed(parts[i])
  {
    var raw := Split(header, ',');
    seq(|raw|, i requires 0 <= i < |raw| => Trim(raw[i]))
  }

  predicate IsBearer(part: string) {
    EqIgnoreAsciiCase(part, "bearer")
  }

  /**
   * `extract_token_from_protocol`: `bearer, <token>` gives `<token>`, a lone
   * `<token>` gives itself, anything else gives the empty string.
   */
  function ExtractToken(header: string): (token: string)
    ensures ',' !in token && IsTrimmed(token)
  {
    ChooseToken(TrimmedParts(header))
  }

  /**
   * The decision `extract_token_from_protocol` takes on the trimmed parts. The
   * token is always empty or one of the parts.
   */
  function ChooseToken(parts: seq<string>): (token: string)
    ensures token == "" || token in parts
  {
    if |parts| >= 2 && IsBearer(parts[0]) then parts[1]
    else if |parts| == 1 && !IsBearer(parts[0]) then parts[0]
    else ""
  }

  /**
   * The browser form: after a part that reads "bearer" in any case, the token is
   * exactly the trimmed second part, and whatever parts follow are ignored.
   */
  lemma {:induction false} ExtractBearerList(first: string, second: string, more: seq<string>)
    requires ',' !in first && ',' !in second
    requires forall i :: 0 <= i < |more| ==> ',' !in more[i]
    requires IsBearer(Trim(first))
    ensures ExtractToken(Join([first, second] + more, ',')) == Trim(second)
  {
    var parts := [first, second] + more;
    assert forall i :: 0 <= i < |parts| ==> ',' !in parts[i] by {
      forall i | 0 <= i < |parts| ensures ',' !in parts[i] {
        if i >= 2 { assert parts[i] == more[i - 2]; }
      }
    }
    var header := Join(parts, ',');
    SplitJoin(parts, ',');
    var tp := TrimmedParts(header);
    assert tp[0] == Trim(first) && tp[1] == Trim(second);
    assert ChooseToken(tp) == tp[1];
  }

  /**
   * The direct form: a header without commas that is not "bearer" yields itself,
   * trimmed.
   */
  lemma {:induction false} ExtractDirect(header: string)
    requires ',' !in header
    requires !IsBearer(Trim(header))
    ensures ExtractToken(header) == Trim(header)
  {
    SplitNoSeparator(header, ',');
  }

  /** A single part that reads "bearer" (in any case) carries no token. */
  lemma {:induction false} ExtractBearerAlone(header: string)
    requires ',' !in header
    requires IsBearer(Trim(header))
    ensures ExtractToken(header) == ""
  {
    SplitNoSeparator(header, ',');
  }

  /** Two or more parts whose first is not "bearer" carry no token. */
  lemma {:induction false} ExtractOtherList(parts: seq<string>)
    requires |parts| >= 2
    requires forall i :: 0 <= i < |parts| ==> ',' !in parts[i]
    requires !IsBearer(Trim(parts[0]))
    ensures ExtractToken(Join(parts, ',')) == ""
  {
    SplitJoin(parts, ',');
  }

  /**
   * The token is non-empty exactly when the header has the bearer form with a
   * non-blank second part, or is a single non-blank part other than "bearer".
   */
  lemma {:induction false} ExtractNonEmptyIff(header: string)
    ensures ExtractToken(header) != "" <==>
      var parts := TrimmedParts(header);
      (|parts| >= 2 && IsBearer(parts[0]) && parts[1] != "")
      || (|parts| == 1 && !IsBearer(parts[0]) && parts[0] != "")
  {
  }

  /**
   * What a browser sends for `new WebSocket(url, ["bearer", token])` gives back
   * the token, for every token that is a valid subprotocol list element
   * (no comma, no surrounding whitespace).
   */
  lemma {:induction false} ExtractBrowserHeader(token: string)
    requires ',' !in token && IsTrimmed(token)
    ensures ExtractToken("bearer, " + token) == token
  {
    TrimBearer();
    BrowserPrefix(token);
    ExtractAfterBearer("bearer", token);
  }

  /** Any spelling of "bearer", then `", "`, then the token. */
  lemma {:induction false} ExtractAfterBearer(b: string, token: string)
    requires IsBearer(Trim(b)) && ',' !in b
    requires ',' !in token && IsTrimmed(token)
    ensures ExtractToken(b + ", " + token) == token
  {
    CommaSpace(b, token);
    SpaceThenToken(token);
    ExtractBearerPair(b, " " + token);
  }

  /** Two parts only: the bearer part, a comma, and the token part. */
  lemma {:induction false} ExtractBearerPair(first: string, second: string)
    requires ',' !in first && ',' !in second
    requires IsBearer(Trim(first))
    ensures ExtractToken(first + [','] + second) == Trim(second)
  {
    ExtractBearerList(first, second, []);
    assert [first, second] + [] == [first, second];
  }

  /** A client that sends the bare token gets it back, unless it is "bearer". */
  lemma {:induction false} ExtractBareToken(token: string)
    requires ',' !in token && IsTrimmed(token) && !IsBearer(token)
    ensures ExtractToken(token) == token
  {
    TrimOfTrimmed(token);
    ExtractDirect(token);
  }

  /** The empty header carries no token. */
  lemma {:induction false} ExtractEmptyHeader()
    ensures ExtractToken("") == ""
  {
    ExtractDirect("");
  }

  /** "bearer" alone carries no token. */
  lemma {:induction false} ExtractBearerOnly()
    ensures ExtractToken("bearer") == ""
  {
    TrimBearer();
    ExtractBearerAlone("bearer");
  }

  /** "bearer, " carries the empty token. */
  lemma {:induction false} ExtractBearerEmptyToken()
    ensures ExtractToken("bearer, ") == ""
  {
    ExtractBrowserHeader("");
    assert "bearer, " + "" == "bearer, ";
  }

  /*
   * Helper facts. Each states one small fact about a literal or a
   * concatenation on its own, so that the proofs above can call it instead
   * of asking the solver to find the fact among everything else in scope.
   */

  lemma {:induction false} BrowserPrefix(token: string)
    ensures "bearer" + ", " + token == "bearer, " + token
  {
    assert "bearer" + ", " == "bearer, ";
  }

  lemma {:induction false} CommaSpace(b: string, token: string)
    ensures b + [','] + (" " + token) == b + ", " + token
  {
  }

  lemma {:induction false} SpaceThenToken(token: string)
    requires ',' !in token && IsTrimmed(token)
    ensures Trim(" " + token) == token && ',' !in " " + token
  {
    SpaceIsWhitespace();
    TrimOfLeftPadded(" ", token);
    SpaceKeepsCommaFree(token);
  }

  lemma {:induction false} SpaceIsWhitespace()
    ensures AllWhitespace(" ")
  {
  }

  lemma {:induction false} SpaceKeepsCommaFree(token: string)
    requires ',' !in token
    ensures ',' !in " " + token
  {
  }

  lemma {:induction false} TrimBearer()
    ensures Trim("bearer") == "bearer" && IsBearer("bearer") && ',' !in "bearer"
  {
    BearerTrimmed();
    TrimOfTrimmed("bearer");
    BearerIsBearer();
    BearerCommaFree();
  }

  lemma {:induction false} BearerTrimmed()
    ensures IsTrimmed("bearer")
  {
  }

  lemma {:induction false} BearerIsBearer()
    ensures IsBearer("bearer")
  {
  }

  lemma {:induction false} BearerCommaFree()
    ensures ',' !in "bearer"
  {
  }
}
