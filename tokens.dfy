/**
 * The message tokeniser the services use comes from a chat library that is
 * not part of this model. Its behaviour is assumed here, with whitespace
 * consumption switched on as every caller does:
 *  - Consume(text, t) succeeds exactly when the remaining text starts with t,
 *    and then drops t and the whitespace that follows it;
 *  - NextToken(text, d) returns the text up to the first d (all of it when
 *    there is none) and drops that token, the delimiter and the whitespace
 *    after it;
 *  - the remaining text is what the tokeniser's toString returns.
 */
module Tokens {
  import opened Strings

  datatype Consumed = Consumed(ok: bool, rest: string)

  function Consume(text: string, t: string): (c: Consumed)
    ensures c.ok <==> StartsWith(text, t)
    ensures !c.ok ==> c.rest == text
    ensures c.ok ==> |c.rest| <= |text| - |t|
  {
    if StartsWith(text, t) then Consumed(true, SkipSpaces(text[|t|..])) else Consumed(false, text)
  }

  datatype Token = Token(token: string, rest: string)

  /** The position of the first `d` in `text`, or |text| when there is none. */
  function TokenEnd(text: string, d: char): (k: nat)
    ensures k <= |text|
    ensures forall i :: 0 <= i < k ==> text[i] != d
    ensures k < |text| ==> text[k] == d
  {
    if text == [] || text[0] == d then 0 else 1 + TokenEnd(text[1..], d)
  }

  function NextToken(text: string, d: char): (t: Token)
    requires text != []
    ensures d !in t.token
    ensures |t.rest| < |text|
    ensures |t.token| <= |text| && t.token == text[..|t.token|]
    ensures |t.token| < |text| ==> text[|t.token|] == d
  {
    var k := TokenEnd(text, d);
    Token(text[..k], if k < |text| then SkipSpaces(text[k + 1..]) else [])
  }

  /** One space before a word is skipped, and nothing more. */
  lemma SkipOneSpace(w: string)
    requires w != [] && !IsSpace(w[0])
    ensures SkipSpaces(" " + w) == w
  {
    assert (" " + w)[1..] == w;
  }

  /** Consuming the prefix `p` of p + w leaves w without its leading whitespace. */
  lemma ConsumePrefix(p: string, w: string)
    ensures Consume(p + w, p) == Consumed(true, SkipSpaces(w))
  {
    assert (p + w)[..|p|] == p && (p + w)[|p|..] == w;
  }
}
