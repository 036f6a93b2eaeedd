/** The query client's handling of the AI service's reply (services/geminiService.ts):
    trim the text, take the body of the first fenced code block if there is one, parse it,
    and keep the array elements that are complete company records. The network call is
    not modelled: its outcome is an input. */
module GeminiService {
  import opened Wrappers
  import opened Types
  import opened Json
  import Seqs
  import Text

  // ---------------------------------------------------------------------------
  // The service's reply and what the query client returns
  // ---------------------------------------------------------------------------

  datatype GroundingMetadata = GroundingMetadata(groundingChunks: Option<seq<Source>>)
  datatype Candidate = Candidate(groundingMetadata: Option<GroundingMetadata>)

  /** The parts of the service's response the client reads. */
  datatype Response = Response(candidates: Option<seq<Candidate>>, text: string)

  /** A thrown value: an `Error` object with its message, or anything else. */
  datatype Thrown = ErrorObject(message: string) | OtherValue

  /** How the awaited service call ended. */
  datatype CallOutcome = Answered(response: Response) | CallFailed(thrown: Thrown)

  /** `{ results, sources }` as returned by `findCompanies`. */
  datatype SearchResponse = SearchResponse(results: seq<Company>, sources: Option<seq<Source>>)

  /** How an async function ends: it returns a value or throws. */
  datatype Completion<T> = Returned(value: T) | Threw(thrown: Thrown)

  /** The message of the Error thrown when the service throws something that is not an Error. */
  const GenericFailureMessage: string := "Failed to generate company data from Gemini API."

  /** The five keys every company record must carry as strings. */
  const CompanyKeys: seq<string> := ["companyName", "website", "phone", "email", "location"]

  // ---------------------------------------------------------------------------
  // Grounding sources
  // ---------------------------------------------------------------------------

  /** `response.candidates?.[0]?.groundingMetadata?.groundingChunks ?? null`. */
  function GroundingSources(response: Response): (r: Option<seq<Source>>)
    ensures r.Some? ==> response.candidates.Some? && |response.candidates.value| > 0
    ensures r.Some? ==> response.candidates.value[0].groundingMetadata == Some(GroundingMetadata(r))
    ensures response.candidates.Some? && |response.candidates.value| > 0
      && response.candidates.value[0].groundingMetadata.Some?
      ==> r == response.candidates.value[0].groundingMetadata.value.groundingChunks
  {
    match response.candidates
    case None => None
    case Some(cs) =>
      if |cs| == 0 then None
      else match cs[0].groundingMetadata
        case None => None
        case Some(m) => m.groundingChunks
  }

  // ---------------------------------------------------------------------------
  // The fenced-block pattern /```(?:json)?\s*([\s\S]*?)\s*```/
  // ---------------------------------------------------------------------------

  /** Three backticks start at index `i` of `s`. */
  predicate FenceAt(s: string, i: int)
  {
    0 <= i && i + 3 <= |s| && s[i] == '`' && s[i + 1] == '`' && s[i + 2] == '`'
  }

  /** The first index at or after `from` where three backticks start. */
  function FindFence(s: string, from: nat): (r: Option<nat>)
    decreases |s| - from
    ensures r.Some? ==> from <= r.value && FenceAt(s, r.value)
    ensures r.Some? ==> forall i :: from <= i < r.value ==> !FenceAt(s, i)
    ensures r.None? ==> forall i :: from <= i ==> !FenceAt(s, i)
  {
    if from + 3 > |s| then None
    else if FenceAt(s, from) then Some(from)
    else FindFence(s, from + 1)
  }

  /** Index `a` advanced past an optional `json` tag. */
  function SkipJsonTag(s: string, a: nat): (r: nat)
    requires a <= |s|
    ensures r == a || (r == a + 4 <= |s| && s[a..r] == "json")
    ensures r <= |s|
  {
    if a + 4 <= |s| && s[a..a + 4] == "json" then a + 4 else a
  }

  /** The first capture group of the fenced-block pattern, or None when it does not match.
      The opening fence is the first occurrence of three backticks; an optional `json` tag
      and whitespace follow; the body runs lazily up to the next three backticks, and the
      whitespace before those is not part of it. */
  function FencedBody(s: string): Option<string>
  {
    match FindFence(s, 0)
    case None => None
    case Some(p) =>
      var b := Text.WhitespaceEnd(s, SkipJsonTag(s, p + 3));
      match FindFence(s, b)
      case None => None
      case Some(c) => Some(s[b..Text.WhitespaceStart(s, b, c)])
  }

  /** No backtick lies between the end of the opening fence and the start of the body. */
  lemma NoBacktickBeforeBody(s: string, p: nat)
    requires FenceAt(s, p)
    ensures forall k :: p + 3 <= k < Text.WhitespaceEnd(s, SkipJsonTag(s, p + 3)) ==> s[k] != '`'
  {
    var a := SkipJsonTag(s, p + 3);
    forall k | p + 3 <= k < Text.WhitespaceEnd(s, a) ensures s[k] != '`' {
      if k < a {
        assert s[k] == s[p + 3..a][k - (p + 3)];
      }
    }
  }

  /** The pattern matches exactly when the text holds two non-overlapping fences. */
  lemma FencedBodyMatchesIff(s: string)
    ensures FencedBody(s).Some? <==>
      exists p, c :: FenceAt(s, p) && FenceAt(s, c) && p + 3 <= c
  {
    match FindFence(s, 0)
    case None =>
    case Some(p) =>
      var b := Text.WhitespaceEnd(s, SkipJsonTag(s, p + 3));
      NoBacktickBeforeBody(s, p);
      match FindFence(s, b)
      case Some(c) =>
        assert FenceAt(s, p) && FenceAt(s, c) && p + 3 <= c;
      case None =>
        assert forall k :: p + 3 <= k < b ==> !FenceAt(s, k);
  }

  /** A match decomposes the text: a prefix with no fence, the opening fence, the `json` tag
      whenever it is there, all the whitespace that follows, the body, whitespace, and the
      first fence after the body's start. The body holds no fence and neither starts nor
      ends with whitespace. */
  lemma FencedBodyShape(s: string) returns (p: nat, a: nat, b: nat, e: nat, c: nat)
    requires FencedBody(s).Some?
    ensures p + 3 <= a <= b <= e <= c && FenceAt(s, p) && FenceAt(s, c)
    ensures forall i :: 0 <= i < p ==> !FenceAt(s, i)
    ensures a == p + 3 || (a == p + 7 && s[p + 3..a] == "json")
    ensures a == p + 7 <==> (p + 7 <= |s| && s[p + 3..p + 7] == "json")
    ensures forall k :: a <= k < b ==> Text.IsWhitespace(s[k])
    ensures b == |s| || !Text.IsWhitespace(s[b])
    ensures forall i :: b <= i < c ==> !FenceAt(s, i)
    ensures FencedBody(s) == Some(s[b..e])
    ensures forall k :: e <= k < c ==> Text.IsWhitespace(s[k])
    ensures forall i :: 0 <= i < |s[b..e]| ==> !FenceAt(s[b..e], i)
    ensures b < e ==> !Text.IsWhitespace(s[b]) && !Text.IsWhitespace(s[e - 1])
  {
    p := FindFence(s, 0).value;
    a := SkipJsonTag(s, p + 3);
    b := Text.WhitespaceEnd(s, a);
    c := FindFence(s, b).value;
    e := Text.WhitespaceStart(s, b, c);
    FencedBodyIs(s, p, b, c, e);
    NoFenceInSlice(s, b, e, c);
  }

  /** A slice of a fence-free stretch holds no fence either. */
  lemma NoFenceInSlice(s: string, b: nat, e: nat, c: nat)
    requires b <= e <= c <= |s|
    requires forall i :: b <= i < c ==> !FenceAt(s, i)
    ensures forall i :: 0 <= i < |s[b..e]| ==> !FenceAt(s[b..e], i)
  {
    var body := s[b..e];
    forall i | 0 <= i < |body| ensures !FenceAt(body, i) {
      if FenceAt(body, i) {
        assert body[i] == s[b + i] && body[i + 1] == s[b + i + 1] && body[i + 2] == s[b + i + 2];
        assert FenceAt(s, b + i);
      }
    }
  }

  /** A fenced JSON block as the service writes it. */
  function JsonBlock(body: string): string
  {
    "```json\n" + body + "\n```"
  }

  /** The first fence at or after `from` is at `i` when one is there and none is before. */
  lemma FindFenceIs(s: string, from: nat, i: nat)
    requires from <= i && FenceAt(s, i)
    requires forall j :: from <= j < i ==> !FenceAt(s, j)
    ensures FindFence(s, from) == Some(i)
  {
  }

  /** The whitespace run ending at `c` starts at `r` when all of `s[r..c]` is whitespace and
      `s[r - 1]` is not (or `r` is the lower bound). */
  lemma WhitespaceStartIs(s: string, lo: nat, c: nat, r: nat)
    requires lo <= r <= c <= |s|
    requires forall k :: r <= k < c ==> Text.IsWhitespace(s[k])
    requires r == lo || !Text.IsWhitespace(s[r - 1])
    ensures Text.WhitespaceStart(s, lo, c) == r
  {
  }

  /** Text that may stand before a fenced block without being taken for its opening: it
      holds no three backticks in a row and does not end with a backtick. */
  predicate ProseBeforeBlock(prose: string)
  {
    (forall k :: 0 <= k < |prose| ==> !FenceAt(prose, k))
    && (prose == [] || prose[|prose| - 1] != '`')
  }

  /** Inverse of the decomposition: prose without a fence, then a JSON block, then
      anything. The pattern captures exactly the block's body, whatever follows. */
  lemma FencedBodyOfBlock(prose: string, body: string, rest: string)
    requires ProseBeforeBlock(prose)
    requires forall i :: 0 <= i < |body| ==> !FenceAt(body, i)
    requires body == [] || (!Text.IsWhitespace(body[0]) && !Text.IsWhitespace(body[|body| - 1]))
    ensures FencedBody(prose + JsonBlock(body) + rest) == Some(body)
  {
    BlockLayout(prose, body, rest);
    FencedBodyOfLaidOut(prose + JsonBlock(body) + rest, |prose|, body);
  }

  /** `FencedBodyOfBlock` over the positions of the pieces rather than the concatenation. */
  lemma FencedBodyOfLaidOut(s: string, P: nat, body: string)
    requires LaidOut(s, P, body)
    requires forall i :: 0 <= i < |body| ==> !FenceAt(body, i)
    requires body == [] || (!Text.IsWhitespace(body[0]) && !Text.IsWhitespace(body[|body| - 1]))
    ensures FencedBody(s) == Some(body)
  {
    var E := P + 8 + |body|;
    var b := if body == [] then E + 1 else P + 8;
    var e := if body == [] then b else E;
    BlockOpening(s, P, body);
    BlockClosing(s, P, body);
    FencedBodyIs(s, P, b, E + 1, e);
    if body == [] {
      assert s[b..e] == [];
    } else {
      assert s[b..e] == body;
    }
  }

  /** The capture once the positions of the fences and of the whitespace runs are known. */
  lemma FencedBodyIs(s: string, p: nat, b: nat, c: nat, e: nat)
    requires FindFence(s, 0) == Some(p)
    requires p + 3 <= |s| && Text.WhitespaceEnd(s, SkipJsonTag(s, p + 3)) == b
    requires FindFence(s, b) == Some(c)
    requires b <= c <= |s| && Text.WhitespaceStart(s, b, c) == e
    ensures b <= e <= |s| && FencedBody(s) == Some(s[b..e])
  {
  }

  /** The characters of `s` are a prefix of length `P` in which no fence starts, then `JsonBlock(body)`. */
  ghost predicate LaidOut(s: string, P: nat, body: string)
  {
    |s| >= P + 12 + |body|
    && (forall k :: 0 <= k < P ==> !FenceAt(s, k))
    && s[P] == '`' && s[P + 1] == '`' && s[P + 2] == '`'
    && s[P + 3..P + 7] == "json" && s[P + 7] == '\n'
    && (forall k :: 0 <= k < |body| ==> s[P + 8 + k] == body[k])
    && s[P + 8..P + 8 + |body|] == body
    && s[P + 8 + |body|] == '\n'
    && s[P + 9 + |body|] == '`' && s[P + 10 + |body|] == '`' && s[P + 11 + |body|] == '`'
  }

  /** Where the pieces of `prose + JsonBlock(body) + rest` sit. */
  lemma BlockLayout(prose: string, body: string, rest: string)
    requires ProseBeforeBlock(prose)
    ensures LaidOut(prose + JsonBlock(body) + rest, |prose|, body)
  {
    var s := prose + JsonBlock(body) + rest;
    var P := |prose|;
    assert s == prose + "```json\n" + body + "\n```" + rest;
    assert forall k :: 0 <= k < P ==> s[k] == prose[k];
    forall k | 0 <= k < P ensures !FenceAt(s, k) {
      if k + 3 <= P {
        assert !FenceAt(prose, k);
      } else {
        assert s[P - 1] == prose[P - 1];
      }
    }
    assert s[P + 3] == 'j' && s[P + 4] == 's' && s[P + 5] == 'o' && s[P + 6] == 'n';
  }

  /** The opening fence of a laid-out block is found, and the body starts right after the
      tag and the line break (or at the closing fence when the body is empty). */
  lemma BlockOpening(s: string, P: nat, body: string)
    requires LaidOut(s, P, body)
    requires body == [] || !Text.IsWhitespace(body[0])
    ensures FindFence(s, 0) == Some(P)
    ensures Text.WhitespaceEnd(s, SkipJsonTag(s, P + 3)) == if body == [] then P + 9 else P + 8
  {
    FindFenceIs(s, 0, P);
    assert SkipJsonTag(s, P + 3) == P + 7;
    Text.WhitespaceEndOfRun(s, P + 7, if body == [] then P + 9 else P + 8);
  }

  /** From the start of the body the next fence is the closing one, and the body ends at the
      line break before it. */
  lemma BlockClosing(s: string, P: nat, body: string)
    requires LaidOut(s, P, body)
    requires forall i :: 0 <= i < |body| ==> !FenceAt(body, i)
    requires body == [] || !Text.IsWhitespace(body[|body| - 1])
    ensures var E := P + 8 + |body|;
      var b := if body == [] then E + 1 else P + 8;
      FindFence(s, b) == Some(E + 1) && Text.WhitespaceStart(s, b, E + 1) == if body == [] then b else E
  {
    var E := P + 8 + |body|;
    var b := if body == [] then E + 1 else P + 8;
    forall i | b <= i < E + 1 ensures !FenceAt(s, i) {
      if i + 3 <= E {
        assert !FenceAt(body, i - (P + 8));
      }
    }
    FindFenceIs(s, b, E + 1);
    WhitespaceStartIs(s, b, E + 1, if body == [] then b else E);
  }

  // ---------------------------------------------------------------------------
  // Keeping the complete company records
  // ---------------------------------------------------------------------------

  /** The filter's test: `item && typeof item.companyName === 'string' && ...` for the five keys. */
  predicate IsCompanyRecord(v: Json)
  {
    Truthy(v)
    && HasStringMember(v, "companyName")
    && HasStringMember(v, "website")
    && HasStringMember(v, "phone")
    && HasStringMember(v, "email")
    && HasStringMember(v, "location")
  }

  /** The company a complete record describes. */
  function ToCompany(v: Json): Company
    requires IsCompanyRecord(v)
  {
    Company(
      StringMember(v, "companyName"),
      StringMember(v, "website"),
      StringMember(v, "phone"),
      StringMember(v, "email"),
      StringMember(v, "location"))
  }

  /** The JSON object that describes a company, as the service is asked to write it. */
  function CompanyJson(c: Company): Json
  {
    JObject(map[
      "companyName" := JString(c.companyName),
      "website" := JString(c.website),
      "phone" := JString(c.phone),
      "email" := JString(c.email),
      "location" := JString(c.location)])
  }

  /** `parsedData.filter(...) as Company[]`: the complete records of the array, in order. */
  function CompanyRecords(items: seq<Json>): (r: seq<Company>)
    ensures |r| <= |items|
  {
    var kept := Seqs.Filter(IsCompanyRecord, items);
    seq(|kept|, k requires 0 <= k < |kept| => ToCompany(kept[k]))
  }

  /** The truthiness test is implied by the member tests: a record is an object with the
      five string members, and every such object is a record. */
  lemma CompanyRecordIff(v: Json)
    ensures IsCompanyRecord(v) <==>
      v.JObject? && forall k :: 0 <= k < |CompanyKeys| ==> HasStringMember(v, CompanyKeys[k])
  {
    if v.JObject? && forall k :: 0 <= k < |CompanyKeys| ==> HasStringMember(v, CompanyKeys[k]) {
      assert HasStringMember(v, CompanyKeys[0]) && HasStringMember(v, CompanyKeys[1]);
      assert HasStringMember(v, CompanyKeys[2]) && HasStringMember(v, CompanyKeys[3]);
      assert HasStringMember(v, CompanyKeys[4]);
    }
  }

  /** Encoding a company as the service is asked to and filtering it back gives it back. */
  lemma CompanyJsonIsRecord(c: Company)
    ensures IsCompanyRecord(CompanyJson(c)) && ToCompany(CompanyJson(c)) == c
  {
  }

  /** Filtering works element by element and keeps the order: the records of a
      concatenation are the records of each part, one after the other. */
  lemma CompanyRecordsAppend(a: seq<Json>, b: seq<Json>)
    ensures CompanyRecords(a + b) == CompanyRecords(a) + CompanyRecords(b)
  {
    Seqs.FilterAppend(IsCompanyRecord, a, b);
  }

  /** A single element is kept, converted, exactly when it is a complete record. */
  lemma CompanyRecordsSingle(v: Json)
    ensures CompanyRecords([v]) == if IsCompanyRecord(v) then [ToCompany(v)] else []
  {
    Seqs.FilterSingle(IsCompanyRecord, v);
  }

  /** Every result comes from a complete record of the array, and every complete record
      of the array yields a result. */
  lemma CompanyRecordsMembers(items: seq<Json>)
    ensures forall c :: c in CompanyRecords(items) ==>
      exists k :: 0 <= k < |items| && IsCompanyRecord(items[k]) && ToCompany(items[k]) == c
    ensures forall k :: 0 <= k < |items| && IsCompanyRecord(items[k]) ==>
      ToCompany(items[k]) in CompanyRecords(items)
  {
    var kept := Seqs.Filter(IsCompanyRecord, items);
    var r := CompanyRecords(items);
    forall c | c in r
      ensures exists k :: 0 <= k < |items| && IsCompanyRecord(items[k]) && ToCompany(items[k]) == c
    {
      var j :| 0 <= j < |r| && r[j] == c;
      assert kept[j] in items;
      var k :| 0 <= k < |items| && items[k] == kept[j];
      assert IsCompanyRecord(items[k]) && ToCompany(items[k]) == c;
    }
    forall k | 0 <= k < |items| && IsCompanyRecord(items[k])
      ensures ToCompany(items[k]) in r
    {
      assert items[k] in kept;
      var j :| 0 <= j < |kept| && kept[j] == items[k];
      assert r[j] == ToCompany(items[k]);
    }
  }

  /** An array of well-formed company objects comes back as exactly those companies. */
  lemma CompanyRecordsOfEncoded(cs: seq<Company>)
    ensures CompanyRecords(EncodeCompanies(cs)) == cs
  {
    var items := EncodeCompanies(cs);
    forall k | 0 <= k < |items| ensures IsCompanyRecord(items[k]) {
      CompanyJsonIsRecord(cs[k]);
    }
    Seqs.FilterAll(IsCompanyRecord, items);
    var r := CompanyRecords(items);
    forall k | 0 <= k < |cs| ensures r[k] == cs[k] {
      CompanyJsonIsRecord(cs[k]);
    }
  }

  // ---------------------------------------------------------------------------
  // Post-processing of the reply and findCompanies
  // ---------------------------------------------------------------------------

  /** The text handed to the parser: the fenced body if the pattern matches, else all of it. */
  function JsonText(raw: string): string
  {
    match FencedBody(raw)
    case Some(body) => body
    case None => raw
  }

  /** The results a parse outcome yields: a parse failure and a non-array are both "no results". */
  function ResultsOf(parsed: Option<Json>): seq<Company>
  {
    match parsed
    case Some(JArray(items)) => CompanyRecords(items)
    case _ => []
  }

  /** What `findCompanies` does with the reply text once the call has returned. `parse`
      stands for `JSON.parse`: None where it would throw. */
  function PostProcess(text: string, sources: Option<seq<Source>>, parse: string -> Option<Json>): (r: SearchResponse)
    ensures r.sources == sources
    ensures Text.Trim(text) == [] ==> r.results == []
  {
    var raw := Text.Trim(text);
    if raw == [] then SearchResponse([], sources)
    else SearchResponse(ResultsOf(parse(JsonText(raw))), sources)
  }

  /** `findCompanies` from the moment the service call settles. A failure of the call is
      rethrown when it is an Error and replaced by an Error with a fixed message otherwise;
      every other anomaly yields an empty result list. */
  function FindCompanies(call: CallOutcome, parse: string -> Option<Json>): (r: Completion<SearchResponse>)
    ensures r.Threw? <==> call.CallFailed?
    ensures r.Threw? ==> r.thrown.ErrorObject?
    ensures call.CallFailed? && call.thrown.ErrorObject? ==> r == Threw(call.thrown)
    ensures call.CallFailed? && call.thrown.OtherValue? ==> r == Threw(ErrorObject(GenericFailureMessage))
    ensures call.Answered? ==> r.value.sources == GroundingSources(call.response)
  {
    match call
    case CallFailed(ErrorObject(m)) => Threw(ErrorObject(m))
    case CallFailed(OtherValue) => Threw(ErrorObject(GenericFailureMessage))
    case Answered(response) => Returned(PostProcess(response.text, GroundingSources(response), parse))
  }

  /** A reply that does not parse is not an error: it yields no results. */
  lemma ParseFailureMeansNoResults(text: string, sources: Option<seq<Source>>, parse: string -> Option<Json>)
    requires parse(JsonText(Text.Trim(text))).None?
    ensures PostProcess(text, sources, parse) == SearchResponse([], sources)
  {
  }

  /** A reply that parses to something other than an array yields no results. */
  lemma NonArrayMeansNoResults(text: string, sources: Option<seq<Source>>, parse: string -> Option<Json>)
    requires parse(JsonText(Text.Trim(text))).Some? && !parse(JsonText(Text.Trim(text))).value.JArray?
    ensures PostProcess(text, sources, parse) == SearchResponse([], sources)
  {
  }

  /** A reply that parses to an array yields exactly its complete records, at most as many
      as the array has elements. */
  lemma ArrayMeansItsRecords(text: string, sources: Option<seq<Source>>, parse: string -> Option<Json>, items: seq<Json>)
    requires Text.Trim(text) != []
    requires parse(JsonText(Text.Trim(text))) == Some(JArray(items))
    ensures PostProcess(text, sources, parse).results == CompanyRecords(items)
    ensures |PostProcess(text, sources, parse).results| <= |items|
  {
  }

  /** Without a fenced block the whole trimmed text is parsed. */
  lemma UnfencedTextParsedWhole(raw: string)
    requires forall p, c :: FenceAt(raw, p) && FenceAt(raw, c) ==> c < p + 3
    ensures JsonText(raw) == raw
  {
    FencedBodyMatchesIff(raw);
  }

  /** Prose before a fenced JSON block is ignored: the results are the block's records. */
  lemma FencedReplyResults(text: string, prose: string, body: string, rest: string,
                           sources: Option<seq<Source>>, parse: string -> Option<Json>, items: seq<Json>)
    requires Text.Trim(text) == prose + JsonBlock(body) + rest
    requires ProseBeforeBlock(prose)
    requires forall i :: 0 <= i < |body| ==> !FenceAt(body, i)
    requires body == [] || (!Text.IsWhitespace(body[0]) && !Text.IsWhitespace(body[|body| - 1]))
    requires parse(body) == Some(JArray(items))
    ensures PostProcess(text, sources, parse) == SearchResponse(CompanyRecords(items), sources)
  {
    FencedBodyOfBlock(prose, body, rest);
  }

  /** A reply that is just a JSON block is parsed from the block's body. */
  lemma JsonTextOfBlock(body: string)
    requires forall i :: 0 <= i < |body| ==> !FenceAt(body, i)
    requires body == [] || (!Text.IsWhitespace(body[0]) && !Text.IsWhitespace(body[|body| - 1]))
    ensures JsonText(JsonBlock(body)) == body
  {
    FencedBodyOfBareBlock(body);
  }

  /** A reply that is just a JSON block yields what its body parses to. */
  lemma PostProcessOfBlock(body: string, sources: Option<seq<Source>>, parse: string -> Option<Json>)
    requires forall i :: 0 <= i < |body| ==> !FenceAt(body, i)
    requires body == [] || (!Text.IsWhitespace(body[0]) && !Text.IsWhitespace(body[|body| - 1]))
    ensures PostProcess(JsonBlock(body), sources, parse) == SearchResponse(ResultsOf(parse(body)), sources)
  {
    var text := JsonBlock(body);
    BlockIsTrimmed(body);
    JsonTextOfBlock(body);
    PostProcessOfTrimmed(text, text, sources, parse);
  }

  /** Post-processing of a reply whose trimmed text is `raw`, when that is not empty. */
  lemma PostProcessOfTrimmed(text: string, raw: string, sources: Option<seq<Source>>, parse: string -> Option<Json>)
    requires Text.Trim(text) == raw && raw != []
    ensures PostProcess(text, sources, parse) == SearchResponse(ResultsOf(parse(JsonText(raw))), sources)
  {
  }

  /** A JSON block starts and ends with a backtick, so trimming leaves it alone. */
  lemma BlockIsTrimmed(body: string)
    ensures Text.Trim(JsonBlock(body)) == JsonBlock(body)
  {
    var text := JsonBlock(body);
    assert text[0] == '`' && text[|text| - 1] == '`';
    Text.TrimKeepsTrimmed(text);
  }

  /** `FencedBodyOfBlock` without prose and without anything after the block. */
  lemma FencedBodyOfBareBlock(body: string)
    requires forall i :: 0 <= i < |body| ==> !FenceAt(body, i)
    requires body == [] || (!Text.IsWhitespace(body[0]) && !Text.IsWhitespace(body[|body| - 1]))
    ensures FencedBody(JsonBlock(body)) == Some(body)
  {
    var e: string := [];
    assert e + JsonBlock(body) + e == JsonBlock(body);
    FencedBodyOfBlock(e, body, e);
  }

  /** The JSON array that lists the given companies. */
  function EncodeCompanies(cs: seq<Company>): (r: seq<Json>)
    ensures |r| == |cs|
  {
    seq(|cs|, k requires 0 <= k < |cs| => CompanyJson(cs[k]))
  }

  /** End to end: when the service answers with a fenced array of well-formed company
      objects, `findCompanies` returns exactly those companies with the grounding sources. */
  lemma WellFormedReplyRoundTrip(cs: seq<Company>, body: string, candidates: Option<seq<Candidate>>,
                                 parse: string -> Option<Json>)
    requires forall i :: 0 <= i < |body| ==> !FenceAt(body, i)
    requires body == [] || (!Text.IsWhitespace(body[0]) && !Text.IsWhitespace(body[|body| - 1]))
    requires parse(body) == Some(JArray(EncodeCompanies(cs)))
    ensures FindCompanies(Answered(Response(candidates, JsonBlock(body))), parse)
         == Returned(SearchResponse(cs, GroundingSources(Response(candidates, JsonBlock(body)))))
  {
    PostProcessOfBlock(body, GroundingSources(Response(candidates, JsonBlock(body))), parse);
    CompanyRecordsOfEncoded(cs);
  }
}
