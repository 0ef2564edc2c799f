/**
 Turning a model's untrusted answer into citations: `_parse` and
 `_resolve_evidence` of backend/core/reasoning/grounded.py.
 */
module Grounding {
  import opened Wrappers
  import opened Identifiers
  import opened Sequences

  /** What `int(value)` makes of a cited value: a number, a `TypeError` or
      `ValueError`, or - for an infinite number - an `OverflowError`, which is not caught. */
  datatype RawIndex = Index(i: int) | NotANumber | Infinite

  datatype RawEvidence = NotAList | List(values: seq<RawIndex>)

  /** One entry of the claims, its text already stripped. */
  datatype RawClaim = NotAnObject | ClaimObject(text: string, evidence: RawEvidence)

  datatype RawClaims = NoClaims | NotIterable | Entries(entries: seq<RawClaim>)

  datatype Payload = NotAnAnswer | AnswerObject(answer: string, claims: RawClaims, abstained: bool)

  datatype Claim = Claim(text: string, evidence: seq<Uuid>)

  datatype GeneratedAnswer = GeneratedAnswer(text: string, claims: seq<Claim>, abstained: bool, invented: nat)

  /** The two refusals, and exceptions nothing here catches. */
  datatype Rejection = NoAnswerObject | EmptyAnswer | Uncaught

  // ----- what citations mean -----

  predicate Retrieved(v: RawIndex, count: nat) {
    v.Index? && 0 <= v.i < count
  }

  /** Valid indices, each where it first appears. */
  function FirstMentions(values: seq<RawIndex>, count: nat): seq<nat> {
    if |values| == 0 then []
    else
      var before, v := FirstMentions(values[..|values| - 1], count), values[|values| - 1];
      if Retrieved(v, count) && v.i !in before then before + [v.i] else before
  }

  function InventedIn(values: seq<RawIndex>, count: nat): nat {
    if |values| == 0 then 0
    else InventedIn(values[..|values| - 1], count) + if Retrieved(values[|values| - 1], count) then 0 else 1
  }

  /** Positions that repeat an index already cited. */
  function RepeatedIn(values: seq<RawIndex>, count: nat): nat {
    if |values| == 0 then 0
    else
      var n := |values| - 1;
      RepeatedIn(values[..n], count) + if Retrieved(values[n], count) && values[n] in values[..n] then 1 else 0
  }

  function Chosen(ids: seq<Uuid>, indices: seq<nat>): (r: seq<Uuid>)
    requires forall i | i in indices :: i < |ids|
    ensures |r| == |indices|
  {
    seq(|indices|, k requires 0 <= k < |indices| => assert indices[k] in indices; ids[indices[k]])
  }

  lemma {:induction false} FirstMentionsAre(values: seq<RawIndex>, count: nat)
    ensures forall i: nat :: i in FirstMentions(values, count) <==> Index(i) in values && i < count
    ensures AllDifferent(FirstMentions(values, count))
  {
    if |values| > 0 {
      var n := |values| - 1;
      var v := values[n];
      FirstMentionsAre(values[..n], count);
      assert values == values[..n] + [v];
      var before, f := FirstMentions(values[..n], count), FirstMentions(values, count);
      assert f == before || (Retrieved(v, count) && v.i !in before && f == before + [v.i]);
      assert Retrieved(v, count) ==> v == Index(v.i);
    }
  }

  /** Every entry of a citation list is resolved, invented or a repetition. */
  lemma {:induction false} CitationsSplit(values: seq<RawIndex>, count: nat)
    ensures |values| == |FirstMentions(values, count)| + InventedIn(values, count) + RepeatedIn(values, count)
  {
    if |values| > 0 {
      var n := |values| - 1;
      CitationsSplit(values[..n], count);
      FirstMentionsAre(values[..n], count);
      assert Retrieved(values[n], count) ==> Index(values[n].i) == values[n];
    }
  }

  /** The chunks a citation list comes to: those of its valid indices, first mentions only. */
  ghost predicate Resolves(raw: RawEvidence, ids: seq<Uuid>, resolved: seq<Uuid>) {
    if raw.NotAList? then resolved == []
    else
      var indices := FirstMentions(raw.values, |ids|);
      (forall i | i in indices :: i < |ids|) && resolved == Chosen(ids, indices)
  }

  function Invented(raw: RawEvidence, count: nat): nat {
    if raw.NotAList? then 0 else InventedIn(raw.values, count)
  }

  /** `_resolve_evidence`. */
  method ResolveEvidence(raw: RawEvidence, ids: seq<Uuid>) returns (r: Result<(seq<Uuid>, nat), Rejection>)
    ensures r.Failure? <==> raw.List? && Infinite in raw.values
    ensures r.Failure? ==> r.error == Uncaught
    ensures r.Success? && raw.NotAList? ==> r.value == ([], 0)
    ensures r.Success? ==> Resolves(raw, ids, r.value.0) && r.value.1 == Invented(raw, |ids|)
  {
    if raw.NotAList? {
      return Success(([], 0));
    }
    var resolved: seq<Uuid> := [];
    var invented := 0;
    var seen: set<nat> := {};
    var values := raw.values;
    for n := 0 to |values|
      invariant Infinite !in values[..n]
      invariant forall i :: i in seen <==> i in FirstMentions(values[..n], |ids|)
      invariant forall i | i in FirstMentions(values[..n], |ids|) :: i < |ids|
      invariant resolved == Chosen(ids, FirstMentions(values[..n], |ids|))
      invariant invented == InventedIn(values[..n], |ids|)
    {
      assert values[..n + 1][..n] == values[..n];
      match values[n]
      case Infinite =>
        return Failure(Uncaught);
      case NotANumber =>
        invented := invented + 1;
      case Index(index) =>
        if !(0 <= index < |ids|) {
          invented := invented + 1;
        } else if index !in seen {
          seen := seen + {index};
          resolved := resolved + [ids[index]];
        }
    }
    assert values[..|values|] == values;
    return Success((resolved, invented));
  }

  /** The list entries that become claims. */
  predicate Kept(raw: RawClaim) {
    raw.ClaimObject? && raw.text != ""
  }

  function KeptClaims(entries: seq<RawClaim>): seq<RawClaim> {
    if |entries| == 0 then []
    else KeptClaims(entries[..|entries| - 1]) + if Kept(entries[|entries| - 1]) then [entries[|entries| - 1]] else []
  }

  /** The kept entries are the objects whose text is not empty. */
  lemma {:induction false} KeptAre(entries: seq<RawClaim>)
    ensures forall raw :: raw in KeptClaims(entries) <==> raw in entries && raw.ClaimObject? && raw.text != ""
  {
    if |entries| > 0 {
      var n := |entries| - 1;
      KeptAre(entries[..n]);
      assert entries == entries[..n] + [entries[n]];
    }
  }

  function TotalInvented(kept: seq<RawClaim>, count: nat): nat {
    if |kept| == 0 then 0
    else TotalInvented(kept[..|kept| - 1], count) + if kept[|kept| - 1].ClaimObject? then Invented(kept[|kept| - 1].evidence, count) else 0
  }

  ghost predicate IsClaim(raw: RawClaim, ids: seq<Uuid>, claim: Claim) {
    raw.ClaimObject? && claim.text == raw.text && Resolves(raw.evidence, ids, claim.evidence)
  }

  ghost predicate AreClaims(kept: seq<RawClaim>, ids: seq<Uuid>, claims: seq<Claim>) {
    |claims| == |kept| && forall i | 0 <= i < |kept| :: IsClaim(kept[i], ids, claims[i])
  }

  function EntriesOf(claims: RawClaims): seq<RawClaim> {
    if claims.Entries? then claims.entries else []
  }

  /** A kept claim cites something `int` overflows on. */
  ghost predicate Overflows(entries: seq<RawClaim>) {
    exists raw | raw in entries :: OverflowsOn(raw)
  }

  predicate OverflowsOn(raw: RawClaim) {
    Kept(raw) && raw.evidence.List? && Infinite in raw.evidence.values
  }

  lemma OneMoreEntry(entries: seq<RawClaim>, n: nat, count: nat)
    requires n < |entries|
    ensures var (before, now, e) := (KeptClaims(entries[..n]), KeptClaims(entries[..n + 1]), entries[n]);
            && now == (if Kept(e) then before + [e] else before)
            && TotalInvented(now, count) == TotalInvented(before, count) + (if Kept(e) then Invented(e.evidence, count) else 0)
            && (Overflows(entries[..n + 1]) <==> Overflows(entries[..n]) || OverflowsOn(e))
  {
    hide Invented, OverflowsOn;
    var kept, e := KeptClaims(entries[..n]), entries[n];
    assert entries[..n + 1][..n] == entries[..n];
    assert entries[..n + 1] == entries[..n] + [e];
    assert (kept + [e])[..|kept|] == kept && kept + [] == kept;
  }

  /** Each claim is some claim of the model's, with its citations resolved. */
  ghost predicate Accepted(claims: seq<Claim>, ids: seq<Uuid>) {
    forall claim | claim in claims :: exists raw :: IsClaim(raw, ids, claim)
  }

  /** The claims of a parsed answer are. */
  lemma ParsedAreAccepted(kept: seq<RawClaim>, ids: seq<Uuid>, claims: seq<Claim>)
    requires AreClaims(kept, ids, claims)
    ensures Accepted(claims, ids)
  {
    hide IsClaim;
    forall claim | claim in claims
      ensures exists raw :: IsClaim(raw, ids, claim)
    {
      var i :| 0 <= i < |claims| && claims[i] == claim;
      assert IsClaim(kept[i], ids, claim);
    }
  }

  /** What the parser raises is not one of its two refusals. */
  ghost predicate EscapesParser(payload: Payload) {
    payload.AnswerObject? && (payload.claims.NotIterable? || Overflows(EntriesOf(payload.claims)))
  }

  ghost predicate IsParsed(payload: Payload, ids: seq<Uuid>, answer: GeneratedAnswer)
    requires payload.AnswerObject?
  {
    var kept := KeptClaims(EntriesOf(payload.claims));
    && answer.text == payload.answer && answer.abstained == payload.abstained
    && AreClaims(kept, ids, answer.claims) && answer.invented == TotalInvented(kept, |ids|)
  }

  lemma NoEntries(ids: seq<Uuid>)
    ensures AreClaims(KeptClaims([]), ids, []) && TotalInvented(KeptClaims([]), |ids|) == 0 && !Overflows([])
  {
  }

  lemma OneMoreClaim(kept: seq<RawClaim>, ids: seq<Uuid>, claims: seq<Claim>, raw: RawClaim, claim: Claim)
    requires AreClaims(kept, ids, claims) && IsClaim(raw, ids, claim)
    ensures AreClaims(kept + [raw], ids, claims + [claim])
  {
    hide IsClaim;
  }

  lemma OverflowsWithin(entries: seq<RawClaim>, n: nat)
    requires n < |entries| && OverflowsOn(entries[n])
    ensures Overflows(entries)
  {
    assert entries[n] in entries;
  }

  /** `_parse`; `answer` is already stripped. */
  method ParseAnswer(payload: Payload, ids: seq<Uuid>) returns (r: Result<GeneratedAnswer, Rejection>)
    ensures payload.NotAnAnswer? ==> r == Failure(NoAnswerObject)
    ensures r == Failure(Uncaught) <==> EscapesParser(payload)
    ensures payload.AnswerObject? ==>
      && r != Failure(NoAnswerObject)
      && (r == Failure(EmptyAnswer) <==> !EscapesParser(payload) && payload.answer == "" && !payload.abstained)
      && (r.Success? ==> IsParsed(payload, ids, r.value))
  {
    hide Resolves, Invented, KeptClaims, TotalInvented, Overflows, AreClaims;
    if payload.NotAnAnswer? {
      return Failure(NoAnswerObject);
    }
    if payload.claims.NotIterable? {
      return Failure(Uncaught);
    }
    var claims: seq<Claim> := [];
    var dropped := 0;
    var entries := if payload.claims.Entries? then payload.claims.entries else [];
    NoEntries(ids);
    for n := 0 to |entries|
      invariant !Overflows(entries[..n])
      invariant AreClaims(KeptClaims(entries[..n]), ids, claims)
      invariant dropped == TotalInvented(KeptClaims(entries[..n]), |ids|)
    {
      OneMoreEntry(entries, n, |ids|);
      if entries[n].ClaimObject? && entries[n].text != "" {
        var resolved := ResolveEvidence(entries[n].evidence, ids);
        match resolved
        case Failure(e) =>
          OverflowsWithin(entries, n);
          return Failure(e);
        case Success((cited, invented)) =>
          dropped := dropped + invented;
          OneMoreClaim(KeptClaims(entries[..n]), ids, claims, entries[n], Claim(entries[n].text, cited));
          claims := claims + [Claim(entries[n].text, cited)];
      }
    }
    assert entries[..|entries|] == entries;
    if payload.answer == "" && !payload.abstained {
      return Failure(EmptyAnswer);
    }
    return Success(GeneratedAnswer(payload.answer, claims, payload.abstained, dropped));
  }

  /** Whatever the model said, a claim cites only what was retrieved, and nothing twice
      if the retrieved chunks are different. */
  lemma ClaimsAreSound(raw: RawClaim, ids: seq<Uuid>, claim: Claim)
    requires IsClaim(raw, ids, claim)
    ensures forall id | id in claim.evidence :: id in ids
    ensures AllDifferent(ids) ==> AllDifferent(claim.evidence)
  {
    if raw.evidence.List? {
      var indices := FirstMentions(raw.evidence.values, |ids|);
      FirstMentionsAre(raw.evidence.values, |ids|);
      assert forall k | 0 <= k < |indices| :: indices[k] in indices && claim.evidence[k] == ids[indices[k]];
    }
  }

  // ----- generation -----

  /** An error code; none is empty. */
  type Code = s: string | s != "" witness "INTERNAL_ERROR"

  /** A `DomainError` with its code, or any other exception. */
  datatype Failure = DomainError(code: Code) | OtherException

  const GENERATION_FAILED: Code := "GENERATION_FAILED"

  /** What the chat model makes of a question. */
  datatype Reply = ModelFails(failure: Failure) | Replies(payload: Payload, inputTokens: int, outputTokens: int)

  datatype Generation = Generation(answer: GeneratedAnswer, inputTokens: int, outputTokens: int)

  const NO_EVIDENCE := GeneratedAnswer("No relevant evidence was retrieved for this question.", [], true, 0)

  /** The parser's two refusals, which are `DomainError`s. */
  predicate Refused(payload: Payload) {
    payload.NotAnAnswer? || (payload.answer == "" && !payload.abstained)
  }

  /** Something that is not a `DomainError` is raised. */
  ghost predicate GenerationEscapes(ids: seq<Uuid>, reply: Reply) {
    |ids| > 0
    && match reply
       case ModelFails(failure) => failure.OtherException?
       case Replies(payload, _, _) => EscapesParser(payload)
  }

  ghost predicate GenerationFails(ids: seq<Uuid>, reply: Reply) {
    |ids| > 0 && !GenerationEscapes(ids, reply) && (reply.ModelFails? || Refused(reply.payload))
  }

  function FailureCode(reply: Reply): Code {
    if reply.ModelFails? && reply.failure.DomainError? then reply.failure.code else GENERATION_FAILED
  }

  /** What is generated: from no evidence the model is not asked. */
  ghost predicate Generates(ids: seq<Uuid>, reply: Reply, g: Generation) {
    if |ids| == 0 then g == Generation(NO_EVIDENCE, 0, 0)
    else
      && reply.Replies? && !EscapesParser(reply.payload) && !Refused(reply.payload)
      && IsParsed(reply.payload, ids, g.answer)
      && g.inputTokens == reply.inputTokens && g.outputTokens == reply.outputTokens
  }

  /** `generate`. */
  method Generate(ids: seq<Uuid>, reply: Reply) returns (r: Result<Generation, Failure>)
    ensures r == Failure(OtherException) <==> GenerationEscapes(ids, reply)
    ensures r.Failure? && r.error.DomainError? <==> GenerationFails(ids, reply)
    ensures r.Failure? && r.error.DomainError? ==> r.error.code == FailureCode(reply)
    ensures r.Success? ==> Generates(ids, reply, r.value) && Accepted(r.value.answer.claims, ids)
    ensures |ids| == 0 ==>
      && r.Success? && r.value.answer.abstained && r.value.answer.claims == [] && r.value.answer.invented == 0
      && r.value.inputTokens == 0 && r.value.outputTokens == 0
  {
    hide EscapesParser, IsParsed, Accepted;
    if |ids| == 0 {
      NothingClaimed(ids);
      return Success(Generation(NO_EVIDENCE, 0, 0));
    }
    match reply
    case ModelFails(failure) =>
      return Failure(failure);
    case Replies(payload, input, output) =>
      var parsed := ParseAnswer(payload, ids);
      match parsed
      case Failure(e) =>
        return Failure(if e == Uncaught then OtherException else DomainError(GENERATION_FAILED));
      case Success(answer) =>
        ParsedIsAccepted(payload, ids, answer);
        return Success(Generation(answer, input, output));
  }

  lemma NothingClaimed(ids: seq<Uuid>)
    ensures Accepted([], ids)
  {
  }

  lemma ParsedIsAccepted(payload: Payload, ids: seq<Uuid>, answer: GeneratedAnswer)
    requires payload.AnswerObject? && IsParsed(payload, ids, answer)
    ensures Accepted(answer.claims, ids)
  {
    hide Accepted, AreClaims;
    ParsedAreAccepted(KeptClaims(EntriesOf(payload.claims)), ids, answer.claims);
  }

  /** A kept claim that cites an infinite number makes generation raise something else. */
  lemma InfiniteIndexEscapes(ids: seq<Uuid>, reply: Reply, raw: RawClaim)
    requires |ids| > 0 && reply.Replies? && reply.payload.AnswerObject?
    requires raw in EntriesOf(reply.payload.claims) && Kept(raw) && raw.evidence.List? && Infinite in raw.evidence.values
    ensures GenerationEscapes(ids, reply)
  {
    assert OverflowsOn(raw);
  }
}
