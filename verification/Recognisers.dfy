/** How the two recognisers of "Connection: close" relate on a request whose head is complete. */
module Recognisers {
  import opened Bytes
  import opened FieldParser
  import Search

  const CANONICAL: Text := "connection: close"

  predicate BlankLineAt(req: Text, h: int) {
    CrlfAt(req, h) && CrlfAt(req, h + 2)
  }

  /** The head is req[..h + 4]: it ends at the first empty line, and every CR in it belongs to a CRLF. */
  ghost predicate CompleteHead(req: Text, h: nat) {
    && BlankLineAt(req, h)
    && (forall k | 0 <= k < h :: !BlankLineAt(req, k))
    && (forall k | 0 <= k < h && req[k] == CR :: req[k + 1] == LF)
  }

  ghost predicate HeadLine(req: Text, h: nat, a: int, b: int) {
    b <= h && FieldLine(req, a, b)
  }

  lemma BlankLineIsFirstStop(req: Text, h: nat)
    requires CompleteHead(req, h)
    ensures Stop(req, h + 2) && forall k | 0 <= k < h + 2 :: !Stop(req, k)
  {
    forall k | 0 <= k < h + 2 ensures !Stop(req, k) {
      if 2 <= k { assert !BlankLineAt(req, k - 2); }
    }
  }

  /** On a complete head the parser's verdict is the grammar's: some field line of the head is a close field. */
  lemma ParserFollowsGrammar(req: Text, h: nat)
    requires CompleteHead(req, h)
    ensures HasStop(req)
    ensures AsksClose(req) <==> exists a, b :: HeadLine(req, h, a, b) && CloseField(req[a..b])
  {
    BlankLineIsFirstStop(req, h);
    if AsksClose(req) {
      var a, b :| ClosingLine(req, a, b);
      assert !(h + 2 < b);
      if b == h + 2 { EmptyAtBlankLine(req, a, b); }
      assert HeadLine(req, h, a, b);
    }
    if a, b :| HeadLine(req, h, a, b) && CloseField(req[a..b]) {
      assert ClosingLine(req, a, b);
    }
  }

  lemma CanonicalIsCloseField(line: Text)
    requires SameFold(line, CANONICAL)
    ensures CloseField(line)
  {
    assert forall k | 0 <= k < 17 :: ToLower(line[k]) == CANONICAL[k];
    assert line[..10] == line[0..10] && SameFold(line[..10], CONNECTION);
    assert ToLower(line[10]) == ':' && ToLower(line[11]) == ' ';
    assert SameFold(line[12..12 + 5], CLOSE);
    assert CloseValueAt(line, 12);
  }

  lemma NeedleParts()
    ensures var needle := Search.CONNECTION_CLOSE;
            && |needle| == 21 && |CANONICAL| == 17
            && (forall k | 0 <= k < 17 :: ToLower(needle[k + 2]) == ToLower(CANONICAL[k]) == CANONICAL[k] != CR)
            && forall c ::
                 && (ToLower(c) == ToLower(needle[0]) <==> c == CR) && (ToLower(c) == ToLower(needle[1]) <==> c == LF)
                 && (ToLower(c) == ToLower(needle[19]) <==> c == CR) && (ToLower(c) == ToLower(needle[20]) <==> c == LF)
  {
  }

  lemma MatchGivesLine(req: Text, i: int)
    requires Search.OccursAt(req, i, Search.CONNECTION_CLOSE)
    ensures CrlfAt(req, i) && SameFold(req[i + 2..i + 19], CANONICAL) && CrlfAt(req, i + 19)
  {
    NeedleParts();
    var needle, line := Search.CONNECTION_CLOSE, req[i + 2..i + 19];
    assert ToLower(req[i + 0]) == ToLower(needle[0]) && ToLower(req[i + 1]) == ToLower(needle[1]);
    assert ToLower(req[i + 19]) == ToLower(needle[19]) && ToLower(req[i + 20]) == ToLower(needle[20]);
    hide ToLower;
    forall k | 0 <= k < 17 ensures ToLower(line[k]) == ToLower(CANONICAL[k]) {
      assert ToLower(req[i + (k + 2)]) == ToLower(needle[k + 2]);
    }
  }

  lemma LineGivesMatch(req: Text, i: int)
    requires 0 <= i && i + 21 <= |req|
    requires CrlfAt(req, i) && SameFold(req[i + 2..i + 19], CANONICAL) && CrlfAt(req, i + 19)
    ensures Search.OccursAt(req, i, Search.CONNECTION_CLOSE)
  {
    NeedleParts();
    hide ToLower;
    var needle, line := Search.CONNECTION_CLOSE, req[i + 2..i + 19];
    forall k | 0 <= k < 21 ensures ToLower(req[i + k]) == ToLower(needle[k]) {
      if 2 <= k < 19 { assert ToLower(line[k - 2]) == ToLower(CANONICAL[k - 2]) == ToLower(needle[k - 2 + 2]); }
    }
  }

  /** A match inside the head is a whole line of it. */
  lemma MatchIsHeadLine(req: Text, h: nat, i: int)
    requires CompleteHead(req, h) && Search.OccursAt(req[..h + 4], i, Search.CONNECTION_CLOSE)
    ensures HeadLine(req, h, i + 2, i + 19) && SameFold(req[i + 2..i + 19], CANONICAL)
  {
    var head := req[..h + 4];
    MatchGivesLine(head, i);
    NeedleParts();
    var line := head[i + 2..i + 19];
    assert line == req[i + 2..i + 19];
    assert forall k | i + 2 <= k < i + 19 :: ToLower(req[k]) == ToLower(line[k - i - 2]) == CANONICAL[k - i - 2] != CR;
    assert ToLower(CR) == CR && req[h] == CR && req[i + 19] == CR;
  }

  lemma HeadLineIsMatch(req: Text, h: nat, a: int, b: int)
    requires CompleteHead(req, h) && HeadLine(req, h, a, b) && SameFold(req[a..b], CANONICAL)
    ensures Search.OccursAt(req[..h + 4], a - 2, Search.CONNECTION_CLOSE)
  {
    var head := req[..h + 4];
    NeedleParts();
    assert b == a - 2 + 19 && head[a..b] == req[a..b];
    LineGivesMatch(head, a - 2);
  }

  /** The search finds a match inside the head exactly when some field line of it is "connection: close",
      with one space and nothing after the value. */
  lemma SearchFindsCanonicalFields(req: Text, h: nat)
    requires CompleteHead(req, h)
    ensures Search.Contains(req[..h + 4], Search.CONNECTION_CLOSE)
       <==> exists a, b :: HeadLine(req, h, a, b) && SameFold(req[a..b], CANONICAL)
  {
    assert h + 4 <= |req|;
    hide Search.OccursAt, SameFold, CompleteHead;
    if Search.Contains(req[..h + 4], Search.CONNECTION_CLOSE) {
      var i :| Search.OccursAt(req[..h + 4], i, Search.CONNECTION_CLOSE);
      MatchIsHeadLine(req, h, i);
    }
    forall a, b | HeadLine(req, h, a, b) && SameFold(req[a..b], CANONICAL)
      ensures Search.Contains(req[..h + 4], Search.CONNECTION_CLOSE)
    {
      HeadLineIsMatch(req, h, a, b);
    }
  }

  /** Refinement: inside a complete head the search never reports a close that the parser does not. */
  lemma SearchRefinesParser(req: Text, h: nat)
    requires CompleteHead(req, h)
    requires Search.Contains(req[..h + 4], Search.CONNECTION_CLOSE)
    ensures AsksClose(req)
  {
    SearchFindsCanonicalFields(req, h);
    var a, b :| HeadLine(req, h, a, b) && SameFold(req[a..b], CANONICAL);
    CanonicalIsCloseField(req[a..b]);
    ParserFollowsGrammar(req, h);
  }

  /** The search finds a match that does not lie inside the head: it begins with the head's last CRLF or behind it. */
  ghost predicate MatchesBehind(req: Text, h: nat) {
    exists i :: h + 2 <= i && Search.OccursAt(req, i, Search.CONNECTION_CLOSE)
  }

  /** A match that begins before the blank line ends with it at the latest. */
  lemma MatchStaysInHead(req: Text, h: nat, i: int)
    requires CompleteHead(req, h) && Search.OccursAt(req, i, Search.CONNECTION_CLOSE) && i < h + 2
    ensures Search.OccursAt(req[..h + 4], i, Search.CONNECTION_CLOSE)
  {
    MatchGivesLine(req, i);
    NeedleParts();
    var line := req[i + 2..i + 19];
    assert forall k | i + 2 <= k < i + 19 :: ToLower(req[k]) == ToLower(line[k - i - 2]) == CANONICAL[k - i - 2] != CR;
    assert ToLower(CR) == CR && req[h] == CR && req[h + 2] == CR && req[i + 1] == LF;
    assert i + 21 <= h + 4;
    assert req[..h + 4][i + 2..i + 19] == line;
    LineGivesMatch(req[..h + 4], i);
  }

  lemma MatchInPrefix(req: Text, n: nat, i: int)
    requires n <= |req| && Search.OccursAt(req[..n], i, Search.CONNECTION_CLOSE)
    ensures Search.OccursAt(req, i, Search.CONNECTION_CLOSE)
  {
    var needle := Search.CONNECTION_CLOSE;
    hide ToLower;
    forall k | 0 <= k < |needle| ensures ToLower(req[i + k]) == ToLower(needle[k]) {
      assert req[i + k] == req[..n][i + k];
    }
  }

  /** The verdict of the servers that search everything they received: a match inside the head, or one behind it. */
  lemma SearchLooksPastTheHead(req: Text, h: nat)
    requires CompleteHead(req, h)
    ensures Search.Contains(req, Search.CONNECTION_CLOSE)
       <==> Search.Contains(req[..h + 4], Search.CONNECTION_CLOSE) || MatchesBehind(req, h)
  {
    assert h + 4 <= |req|;
    hide Search.OccursAt, CompleteHead;
    if i :| Search.OccursAt(req, i, Search.CONNECTION_CLOSE) {
      if i < h + 2 { MatchStaysInHead(req, h, i); }
    }
    if Search.Contains(req[..h + 4], Search.CONNECTION_CLOSE) {
      var i :| Search.OccursAt(req[..h + 4], i, Search.CONNECTION_CLOSE);
      MatchInPrefix(req, h + 4, i);
    }
  }

  ghost predicate HasCloseField(req: Text, h: nat)
    requires CompleteHead(req, h)
  {
    exists a, b :: HeadLine(req, h, a, b) && CloseField(req[a..b])
  }

  ghost predicate HasCanonicalField(req: Text, h: nat)
    requires CompleteHead(req, h)
  {
    exists a, b :: HeadLine(req, h, a, b) && SameFold(req[a..b], CANONICAL)
  }

  lemma CanonicalIsClose(req: Text, h: nat)
    requires CompleteHead(req, h) && HasCanonicalField(req, h)
    ensures HasCloseField(req, h)
  {
    hide CompleteHead, SameFold, CloseField;
    var a, b :| HeadLine(req, h, a, b) && SameFold(req[a..b], CANONICAL);
    CanonicalIsCloseField(req[a..b]);
  }

  /** When the servers agree about a request: with a close field in the head, exactly if one of them is canonical or the
      search matches behind the head; without one, exactly if it does not match there. */
  lemma VerdictsAgree(req: Text, h: nat)
    requires CompleteHead(req, h)
    ensures (AsksClose(req) <==> Search.Contains(req, Search.CONNECTION_CLOSE))
       <==> if HasCloseField(req, h) then HasCanonicalField(req, h) || MatchesBehind(req, h) else !MatchesBehind(req, h)
  {
    ParserFollowsGrammar(req, h);
    SearchFindsCanonicalFields(req, h);
    SearchLooksPastTheHead(req, h);
    if HasCanonicalField(req, h) { CanonicalIsClose(req, h); }
    hide CompleteHead, HeadLine, SameFold, CloseField, AsksClose, Search.Contains, MatchesBehind;
  }

  /** The exact condition for a refinement of the servers' verdicts on a request: whatever the search reports, the
      parser reports, unless the head has no close field and there is a match behind it. */
  lemma SearchRefinesParserUnless(req: Text, h: nat)
    requires CompleteHead(req, h)
    ensures (Search.Contains(req, Search.CONNECTION_CLOSE) ==> AsksClose(req))
       <==> (MatchesBehind(req, h) ==> HasCloseField(req, h))
  {
    ParserFollowsGrammar(req, h);
    SearchFindsCanonicalFields(req, h);
    SearchLooksPastTheHead(req, h);
    if HasCanonicalField(req, h) { CanonicalIsClose(req, h); }
    hide CompleteHead, HeadLine, SameFold, CloseField, AsksClose, Search.Contains, MatchesBehind;
  }

  const FIELD: Text := "Connection:close"
  const NO_SPACE: Text := "G\r\n" + FIELD + "\r\n\r\n"
  const IN_BODY: Text := "G\r\n\r\n" + Search.CONNECTION_CLOSE

  lemma NoSpaceIsCloseField()
    ensures NO_SPACE[3..19] == FIELD && NoCr(FIELD) && CloseField(FIELD)
  {
    assert FIELD[..10] == "Connection" && SameFold("Connection", CONNECTION);
    assert CloseValueAt(FIELD, 11) by {
      assert FIELD[11..16] == "close" && FIELD[16..] == "" && FIELD[11..11] == "";
    }
  }

  lemma NoSpaceIsNoMatch(i: int)
    ensures !Search.OccursAt(NO_SPACE, i, Search.CONNECTION_CLOSE)
  {
    if 0 <= i <= 2 {
      assert ToLower(NO_SPACE[i + 0]) != CR || ToLower(NO_SPACE[i + 13]) != ' ';
      assert Search.CONNECTION_CLOSE[0] == CR && Search.CONNECTION_CLOSE[13] == ' ';
    }
  }

  /** The converse refinement fails: the parser accepts a field with no space after the colon. */
  lemma ParserAcceptsMore()
    ensures CompleteHead(NO_SPACE, 19) && AsksClose(NO_SPACE)
    ensures !Search.Contains(NO_SPACE, Search.CONNECTION_CLOSE)
  {
    NoSpaceIsCloseField();
    forall i ensures !Search.OccursAt(NO_SPACE, i, Search.CONNECTION_CLOSE) {
      NoSpaceIsNoMatch(i);
    }
    assert CompleteHead(NO_SPACE, 19);
    assert HeadLine(NO_SPACE, 19, 3, 19);
    hide CompleteHead, CloseField, AsksClose, HeadLine, Search.Contains;
    ParserFollowsGrammar(NO_SPACE, 19);
  }

  /** Nor does the search respect the end of the head: it reports a match in a body. */
  lemma SearchReportsABody()
    ensures CompleteHead(IN_BODY, 1) && !AsksClose(IN_BODY)
    ensures Search.Contains(IN_BODY, Search.CONNECTION_CLOSE)
  {
    assert Search.OccursAt(IN_BODY, 5, Search.CONNECTION_CLOSE);
    assert CompleteHead(IN_BODY, 1);
    assert forall a, b :: !HeadLine(IN_BODY, 1, a, b);
    hide CompleteHead, CloseField, AsksClose, HeadLine, Search.OccursAt;
    ParserFollowsGrammar(IN_BODY, 1);
  }
}
