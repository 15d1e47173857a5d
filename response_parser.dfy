/**
 * The response parser: reads the fields of a backend JSON reply by looking
 * for fixed byte patterns, without building a parse tree.  Every scan is
 * `strstr` (CString.FindFirst); a missing or malformed field degrades to a
 * default value (false, 0, UnknownCurrency).
 */
module ResponseParser {
  import opened Wrappers
  import opened CString
  import opened NumericText
  import opened Vocabulary

  const AccessGrantedPattern: string := "\"accessGranted\":true"
  const RemainingSecondsKey: string := "\"remainingSeconds\":"
  const CurrencyUsdcPattern: string := "\"currency\":\"USDC\""
  const TokenUsdcPattern: string := "\"token\":\"USDC\""
  const CurrencyTsePattern: string := "\"currency\":\"TSE\""
  const TokenTsePattern: string := "\"token\":\"TSE\""

  /** A character of the pattern disagrees with the text at offset `k` of position `j`. */
  lemma MismatchAt(s: string, pattern: string, j: int, k: nat)
    requires k < |pattern| && (0 <= j + k < |s| ==> s[j + k] != pattern[k])
    ensures !OccursAt(s, pattern, j)
  {
  }

  /** The pattern, as a whole text, contains itself. */
  lemma ContainsItself(before: string, pattern: string, after: string)
    ensures Contains(before + pattern + after, pattern)
  {
    assert OccursAt(pattern, pattern, 0) by {
      assert pattern[0..|pattern|] == pattern;
    }
    ContainsInContext(before, pattern, after, pattern);
  }

  // ---------------------------------------------------------------- accessGranted

  /** `TSE_ParseAccessGranted`: the exact bytes `"accessGranted":true` occur somewhere. */
  function ParseAccessGranted(json: string): (granted: bool)
    ensures granted <==> exists i :: OccursAt(json, AccessGrantedPattern, i)
  {
    Contains(json, AccessGrantedPattern)
  }

  /** Text added around a granting reply never withdraws the grant. */
  lemma AccessGrantedInContext(before: string, json: string, after: string)
    requires ParseAccessGranted(json)
    ensures ParseAccessGranted(before + json + after)
  {
    ContainsInContext(before, json, after, AccessGrantedPattern);
  }

  lemma AccessGrantedTrueExample()
    ensures ParseAccessGranted("{\"accessGranted\":true}")
  {
    var json := "{\"accessGranted\":true}";
    assert json == "{" + AccessGrantedPattern + "}";
    ContainsItself("{", AccessGrantedPattern, "}");
  }

  /**
   * Near misses do not grant access: the value `false`, and `true` after a
   * space, as a pretty-printing serializer writes it.
   */
  lemma AccessGrantedNearMissExample(json: string)
    requires json == "{\"accessGranted\":false}" || json == "{\"accessGranted\": true}"
    ensures !ParseAccessGranted(json)
  {
    var p := AccessGrantedPattern;
    assert 23 <= |json| <= 24 && |p| == 20;
    assert json[..5] == "{\"acc" && json[17] != 't';
    forall j ensures !OccursAt(json, p, j) {
      if j == 1 {
        MismatchAt(json, p, 1, 16);
      } else if 0 <= j <= 4 {
        MismatchAt(json, p, j, 0);
      }
    }
  }

  lemma AccessGrantedEmptyExample()
    ensures !ParseAccessGranted("{}")
  {
    assert forall j :: !OccursAt("{}", AccessGrantedPattern, j);
  }

  // ---------------------------------------------------------------- remainingSeconds

  /**
   * The reply's `remainingSeconds` value is one C can return: `atoi` of the
   * text after the key, when the key occurs, fits an `int`.
   */
  predicate RemainingSecondsDefined(json: string) {
    match FindFirst(json, RemainingSecondsKey)
    case None => true
    case Some(i) => IntMin <= Atoi(json[i + |RemainingSecondsKey|..]) <= IntMax
  }

  /**
   * `TSE_ParseRemainingSeconds`: `atoi` of the text right after the first
   * `"remainingSeconds":`, or 0 when the key does not occur.
   */
  function ParseRemainingSeconds(json: string): (seconds: int)
    requires RemainingSecondsDefined(json)
    ensures IntMin <= seconds <= IntMax
    ensures !Contains(json, RemainingSecondsKey) ==> seconds == 0
  {
    match FindFirst(json, RemainingSecondsKey)
    case None => 0
    case Some(i) => Atoi(json[i + |RemainingSecondsKey|..])
  }

  /**
   * When the first occurrence of the key ends `before + key`, the result is
   * `atoi` of exactly the text that follows it.
   */
  lemma RemainingSecondsAfterFirstKey(before: string, after: string)
    requires forall j :: 0 <= j < |before| ==> !OccursAt(before + RemainingSecondsKey, RemainingSecondsKey, j)
    requires IntMin <= Atoi(after) <= IntMax
    ensures RemainingSecondsDefined(before + RemainingSecondsKey + after)
    ensures ParseRemainingSeconds(before + RemainingSecondsKey + after) == Atoi(after)
  {
    var key := RemainingSecondsKey;
    var prefix := before + key;
    var json := prefix + after;
    assert OccursAt(json, key, |before|) by {
      assert json[|before|..|before| + |key|] == key;
    }
    forall j | 0 <= j < |before| ensures !OccursAt(json, key, j) {
      if OccursAt(json, key, j) {
        assert json[j..j + |key|] == prefix[j..j + |key|];
        assert OccursAt(prefix, key, j);
      }
    }
    FindFirstAt(json, key, |before|);
    assert json[|before| + |key|..] == after;
  }

  /** Writing a number after the first key and reading it back gives the number. */
  lemma RemainingSecondsRoundTrip(before: string, n: nat, after: string)
    requires forall j :: 0 <= j < |before| ==> !OccursAt(before + RemainingSecondsKey, RemainingSecondsKey, j)
    requires n <= IntMax && NoLeadingDigit(after)
    ensures RemainingSecondsDefined(before + RemainingSecondsKey + Decimal(n) + after)
    ensures ParseRemainingSeconds(before + RemainingSecondsKey + Decimal(n) + after) == n
  {
    AtoiOfDecimal(n, after);
    RemainingSecondsAfterFirstKey(before, Decimal(n) + after);
    assert before + RemainingSecondsKey + Decimal(n) + after == before + RemainingSecondsKey + (Decimal(n) + after);
  }

  /** A number is read up to the end of the object. */
  lemma RemainingSecondsExample()
    ensures RemainingSecondsDefined("{\"remainingSeconds\":90}")
    ensures ParseRemainingSeconds("{\"remainingSeconds\":90}") == 90
  {
    var key := RemainingSecondsKey;
    var json := "{\"remainingSeconds\":90}";
    assert json == "{" + key + "90}";
    MismatchAt("{" + key, key, 0, 0);
    assert Decimal(9) == "9";
    assert Decimal(90) == "90";
    RemainingSecondsRoundTrip("{", 90, "}");
    assert "{" + key + Decimal(90) + "}" == json;
  }

  /** A quoted value is not a number to `atoi`: it reads as 0. */
  lemma RemainingSecondsQuotedExample()
    ensures RemainingSecondsDefined("{\"remainingSeconds\":\"90\"}")
    ensures ParseRemainingSeconds("{\"remainingSeconds\":\"90\"}") == 0
  {
    var key := RemainingSecondsKey;
    var json := "{\"remainingSeconds\":\"90\"}";
    assert json == "{" + key + "\"90\"}";
    MismatchAt("{" + key, key, 0, 0);
    AtoiStopsAtJunk("\"90\"}");
    RemainingSecondsAfterFirstKey("{", "\"90\"}");
  }

  /** No key, no seconds. */
  lemma RemainingSecondsAbsentExample()
    ensures ParseRemainingSeconds("{}") == 0
  {
    assert forall j :: !OccursAt("{}", RemainingSecondsKey, j);
  }

  // ---------------------------------------------------------------- currency

  /** The reply names USDC under either the `currency` or the `token` key. */
  predicate NamesUsdc(json: string) {
    Contains(json, CurrencyUsdcPattern) || Contains(json, TokenUsdcPattern)
  }

  /** The reply names TSE under either the `currency` or the `token` key. */
  predicate NamesTse(json: string) {
    Contains(json, CurrencyTsePattern) || Contains(json, TokenTsePattern)
  }

  /** `TSE_ParseCurrency`: USDC is looked for first, then TSE; otherwise unknown. */
  function ParseCurrency(json: string): (c: Currency)
    ensures c == Usdc <==> NamesUsdc(json)
    ensures c == Tse <==> !NamesUsdc(json) && NamesTse(json)
    ensures c == UnknownCurrency <==> !NamesUsdc(json) && !NamesTse(json)
  {
    if Contains(json, CurrencyUsdcPattern) || Contains(json, TokenUsdcPattern) then Usdc
    else if Contains(json, CurrencyTsePattern) || Contains(json, TokenTsePattern) then Tse
    else UnknownCurrency
  }

  /**
   * Adding text around a reply can only move its currency up the scan
   * order UnknownCurrency < Tse < Usdc, which is also the enumerator order.
   */
  lemma CurrencyInContext(before: string, json: string, after: string)
    ensures CurrencyValue(ParseCurrency(json)) <= CurrencyValue(ParseCurrency(before + json + after))
  {
    var whole := before + json + after;
    if Contains(json, CurrencyUsdcPattern) { ContainsInContext(before, json, after, CurrencyUsdcPattern); }
    if Contains(json, TokenUsdcPattern) { ContainsInContext(before, json, after, TokenUsdcPattern); }
    if Contains(json, CurrencyTsePattern) { ContainsInContext(before, json, after, CurrencyTsePattern); }
    if Contains(json, TokenTsePattern) { ContainsInContext(before, json, after, TokenTsePattern); }
  }

  lemma CurrencyTokenUsdcExample()
    ensures ParseCurrency("{\"token\":\"USDC\"}") == Usdc
  {
    var json := "{\"token\":\"USDC\"}";
    assert json == "{" + TokenUsdcPattern + "}";
    ContainsItself("{", TokenUsdcPattern, "}");
  }

  lemma CurrencyTseExample(json: string)
    requires json == "{\"currency\":\"TSE\"}"
    ensures ParseCurrency(json) == Tse
  {
    assert json == "{" + CurrencyTsePattern + "}";
    ContainsItself("{", CurrencyTsePattern, "}");
    NoCurrencyUsdcInTseReply(json);
    NoTokenUsdcInTseReply(json);
  }

  lemma NoCurrencyUsdcInTseReply(json: string)
    requires json == "{\"currency\":\"TSE\"}"
    ensures !Contains(json, CurrencyUsdcPattern)
  {
    var p := CurrencyUsdcPattern;
    assert |json| == 18 && |p| == 17;
    MismatchAt(json, p, 0, 0);
    MismatchAt(json, p, 1, 12);
  }

  lemma NoTokenUsdcInTseReply(json: string)
    requires json == "{\"currency\":\"TSE\"}"
    ensures !Contains(json, TokenUsdcPattern)
  {
    var p := TokenUsdcPattern;
    assert |json| == 18 && |p| == 14;
    assert json[..5] == "{\"cur";
    forall j ensures !OccursAt(json, p, j) {
      if j == 1 {
        MismatchAt(json, p, 1, 1);
      } else if 0 <= j <= 4 {
        MismatchAt(json, p, j, 0);
      }
    }
  }

  /** USDC wins over TSE when a reply names both. */
  lemma CurrencyUsdcFirstExample()
    ensures ParseCurrency("{\"currency\":\"TSE\",\"token\":\"USDC\"}") == Usdc
  {
    var json := "{\"currency\":\"TSE\",\"token\":\"USDC\"}";
    assert json == "{\"currency\":\"TSE\"," + TokenUsdcPattern + "}";
    ContainsItself("{\"currency\":\"TSE\",", TokenUsdcPattern, "}");
  }

  lemma CurrencyEmptyExample()
    ensures ParseCurrency("{}") == UnknownCurrency
  {
    assert forall j :: !OccursAt("{}", CurrencyUsdcPattern, j);
    assert forall j :: !OccursAt("{}", TokenUsdcPattern, j);
    assert forall j :: !OccursAt("{}", CurrencyTsePattern, j);
    assert forall j :: !OccursAt("{}", TokenTsePattern, j);
  }
}
