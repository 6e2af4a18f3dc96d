/**
 Starting a research run through the tool interface: what its input model accepts, and what the research request
 built from an accepted input refuses.
 */
module McpStart {
  import opened Wrappers

  datatype Mode = Quick | VerifiedMode | Deep

  datatype StartInput = StartInput(
    decisionFile: Option<string>, caseId: Option<string>, claimRefs: seq<string>, query: string, locale: string,
    languages: seq<string>, mode: Mode, maximumAgeDays: int, allowedDomains: seq<string>, blockedDomains: seq<string>,
    maxSearch: Option<int>, maxExtract: Option<int>, idempotencyKey: string)

  predicate Within(n: int, low: int, high: int) { low <= n <= high }

  predicate Distinct(s: seq<string>) {
    forall i, j :: 0 <= i < j < |s| ==> s[i] != s[j]
  }

  /** The field bounds and the validator of the input model. */
  predicate Accepted(i: StartInput) {
    && (i.decisionFile.Some? ==> Within(|i.decisionFile.value|, 1, 256))
    && (i.caseId.Some? ==> Within(|i.caseId.value|, 1, 256))
    && Within(|i.claimRefs|, 1, 100)
    && Within(|i.query|, 1, 400)
    && Within(|i.locale|, 2, 35)
    && Within(|i.languages|, 1, 5)
    && Within(i.maximumAgeDays, 1, 3650)
    && |i.allowedDomains| <= 50 && |i.blockedDomains| <= 50
    && (i.maxSearch.Some? ==> Within(i.maxSearch.value, 1, 20))
    && (i.maxExtract.Some? ==> Within(i.maxExtract.value, 1, 10))
    && Within(|i.idempotencyKey|, 1, 128)
    && i.decisionFile.Some? != i.caseId.Some?
    && Distinct(i.claimRefs)
    && (i.maxSearch.Some? && i.maxExtract.Some? ==> i.maxExtract.value <= i.maxSearch.value)
  }

  function Target(i: StartInput): string {
    if i.decisionFile.Some? then i.decisionFile.value else if i.caseId.Some? then i.caseId.value else ""
  }

  // ---------------------------------------------------------------- limits

  datatype ServerPolicy = ServerPolicy(maxSearch: int, maxExtract: int)
  {
    predicate Valid() { 1 <= maxSearch <= 20 && 1 <= maxExtract <= maxSearch && maxExtract <= 10 }
  }

  function Min(a: int, b: int): int { if a < b then a else b }

  function ModeSearch(m: Mode): int { match m case Quick => 5 case VerifiedMode => 10 case Deep => 20 }
  function ModeExtract(m: Mode): int { match m case Quick => 2 case VerifiedMode => 5 case Deep => 10 }

  function SearchLimit(p: ServerPolicy, i: StartInput): int {
    var asked := if i.maxSearch.Some? && i.maxSearch.value != 0 then i.maxSearch.value else ModeSearch(i.mode);
    Min(Min(asked, ModeSearch(i.mode)), p.maxSearch)
  }

  function ExtractLimit(p: ServerPolicy, i: StartInput): int {
    var asked := if i.maxExtract.Some? && i.maxExtract.value != 0 then i.maxExtract.value else ModeExtract(i.mode);
    Min(Min(Min(asked, ModeExtract(i.mode)), p.maxExtract), SearchLimit(p, i))
  }

  // ---------------------------------------------------------------- the patterns

  predicate Letter(c: char) { 'A' <= c <= 'Z' || 'a' <= c <= 'z' }
  predicate AlphaNum(c: char) { Letter(c) || '0' <= c <= '9' }

  predicate AllLetters(s: string) { forall i :: 0 <= i < |s| ==> Letter(s[i]) }
  predicate AllAlphaNum(s: string) { forall i :: 0 <= i < |s| ==> AlphaNum(s[i]) }

  /** An id: alphanumeric first, then up to 255 of those and dot, underscore, colon, hyphen. */
  predicate IdPattern(s: string) {
    && 1 <= |s| <= 256 && AlphaNum(s[0])
    && forall i :: 1 <= i < |s| ==> AlphaNum(s[i]) || s[i] in {'.', '_', ':', '-'}
  }

  predicate SubtagOf(s: string, n: nat) {
    2 <= n <= 8 && n < |s| && s[0] == '-' && AllAlphaNum(s[1..n + 1])
  }

  /** Hyphen and two to eight alphanumerics, any number of times. */
  predicate Subtags(s: string) {
    s == "" || exists n :: 2 <= n <= 8 && SubtagOf(s, n) && Subtags(s[n + 1..])
  }

  /** A language tag: two or three letters, then subtags. */
  predicate LanguageTag(s: string) {
    exists n :: 2 <= n <= 3 && n <= |s| && AllLetters(s[..n]) && Subtags(s[n..])
  }

  /** White space, as stripping and splitting see it. */
  predicate Space(c: char) {
    var n := c as int;
    || 0x09 <= n <= 0x0d || 0x1c <= n <= 0x20 || n == 0x85 || n == 0xa0 || n == 0x1680
    || 0x2000 <= n <= 0x200a || n == 0x2028 || n == 0x2029 || n == 0x202f || n == 0x205f || n == 0x3000
  }

  predicate Blank(s: string) { forall i :: 0 <= i < |s| ==> Space(s[i]) }

  function Stripped(s: string): (r: string)
    ensures |r| <= |s| && (r == "" <==> Blank(s))
  {
    if s == "" then ""
    else if Space(s[0]) then
      assert s == [s[0]] + s[1..];
      Stripped(s[1..])
    else if Space(s[|s| - 1]) then Stripped(s[..|s| - 1])
    else s
  }

  /** Runs of non-space characters: each starts at a non-space after a space or at the start. */
  function Words(s: string): nat {
    if s == "" then 0
    else
      var last := |s| - 1;
      Words(s[..last]) + if !Space(s[last]) && (last == 0 || Space(s[last - 1])) then 1 else 0
  }

  // ---------------------------------------------------------------- building the request

  datatype ContractError =
    | InvalidFreshness | InvalidDecisionFileId | InvalidClaimRefs | QueryRequired | QueryTooLong | InvalidLocale
    | InvalidLanguages | InvalidSearchLimit | InvalidExtractionLimit | TooManyDomainRules

  /** The checks of the research request on an accepted input, in their order. */
  function ContractCheck(p: ServerPolicy, i: StartInput): Option<ContractError> {
    if !Within(i.maximumAgeDays, 1, 3650) then Some(InvalidFreshness)
    else if !IdPattern(Target(i)) then Some(InvalidDecisionFileId)
    else if i.claimRefs == [] || !Distinct(i.claimRefs) then Some(InvalidClaimRefs)
    else if Stripped(i.query) == "" then Some(QueryRequired)
    else if |Stripped(i.query)| > 400 || Words(Stripped(i.query)) > 50 then Some(QueryTooLong)
    else if !LanguageTag(i.locale) then Some(InvalidLocale)
    else if !Within(|i.languages|, 1, 5) || exists k :: 0 <= k < |i.languages| && !LanguageTag(i.languages[k])
      then Some(InvalidLanguages)
    else if !Within(SearchLimit(p, i), 1, 20) then Some(InvalidSearchLimit)
    else if !Within(ExtractLimit(p, i), 1, Min(SearchLimit(p, i), 10)) then Some(InvalidExtractionLimit)
    else if |i.allowedDomains| > 50 || |i.blockedDomains| > 50 then Some(TooManyDomainRules)
    else None
  }

  /** What a caller can check before the call. */
  predicate Malformed(i: StartInput) {
    || !IdPattern(Target(i))
    || Blank(i.query)
    || Words(Stripped(i.query)) > 50
    || !LanguageTag(i.locale)
    || exists k :: 0 <= k < |i.languages| && !LanguageTag(i.languages[k])
  }

  /**
   Of an accepted input the request refuses exactly these: a target, locale or language that misses its pattern, and
   a query of no words or of more than fifty. All its other checks always pass, whatever the server's limits.
   */
  lemma RefusedExactly(p: ServerPolicy, i: StartInput)
    requires p.Valid() && Accepted(i)
    ensures ContractCheck(p, i).Some? <==> Malformed(i)
  {
  }

  // ---------------------------------------------------------------- accepted inputs that are refused

  /** A locale of two question marks has a length the input model accepts. */
  function UnknownLocale(file: string, claim: string, key: string): StartInput {
    StartInput(Some(file), None, [claim], "who pays", "??", ["en"], Quick, 365, [], [], None, None, key)
  }

  lemma UnknownLocaleRefused(p: ServerPolicy, file: string, claim: string, key: string)
    requires p.Valid() && IdPattern(file) && Within(|key|, 1, 128)
    ensures var i := UnknownLocale(file, claim, key);
      Accepted(i) && ContractCheck(p, i) == Some(InvalidLocale)
  {
    var i := UnknownLocale(file, claim, key);
    assert i.locale[0] == '?' && |i.locale| == 2;
    assert !LanguageTag(i.locale) by {
      if n :| 2 <= n <= 3 && n <= |i.locale| && AllLetters(i.locale[..n]) && Subtags(i.locale[n..]) {
        assert Letter(i.locale[..n][0]);
      }
    }
    var q := i.query;
    assert !Space(q[0]) && !Space(q[|q| - 1]);
    assert Stripped(q) == q;
    WordsAtMostLength(q);
  }

  lemma {:induction false} WordsAtMostLength(s: string)
    ensures Words(s) <= |s|
  {
    if s != "" {
      WordsAtMostLength(s[..|s| - 1]);
    }
  }
}
