/**
 * The self-reflecting entity extractor of Agentswithloops.py: the
 * EntitiesValidator component, the two-branch prompt template, and the
 * prompt builder -> LLM -> validator cycle that the pipeline repeats while
 * the validator sends its candidate back, up to the pipeline's loop bound.
 */
module Agents {
  import opened Wrappers
  import opened Text

  /** The terminator token the validator looks for. */
  const Done: string := "DONE"

  /** Output socket names of EntitiesValidator. */
  const EntitiesKey: string := "entities"
  const ToValidateKey: string := "entities_to_validate"

  /** The bound the reflecting pipeline is built with. */
  const MaxLoopsAllowed: nat := 10

  /** What a component's `run` returns: output socket name to value. */
  type Outputs = map<string, string>

  /**
   * EntitiesValidator.run. Only the first reply is inspected: when it
   * contains the terminator the validator accepts, deleting every
   * occurrence of the terminator; otherwise it sends the reply back
   * unchanged for another round.
   */
  function Validate(replies: seq<string>): (out: Outputs)
    requires |replies| > 0
    ensures |out| == 1
    ensures EntitiesKey in out <==> Contains(replies[0], Done)
    ensures ToValidateKey in out <==> !Contains(replies[0], Done)
    ensures EntitiesKey in out ==>
      |out[EntitiesKey]| == |replies[0]| - |Done| * Count(replies[0], Done) < |replies[0]|
    ensures EntitiesKey in out ==>
      Join(Split(replies[0], Done), Done) == replies[0] && Concat(Split(replies[0], Done)) == out[EntitiesKey]
    ensures ToValidateKey in out ==> out[ToValidateKey] == replies[0]
  {
    var reply := replies[0];
    if Contains(reply, Done) then
      CountPositiveIffContains(reply, Done);
      RemoveAllLength(reply, Done);
      JoinSplit(reply, Done);
      ConcatSplit(reply, Done);
      map[EntitiesKey := RemoveAll(reply, Done)]
    else
      map[ToValidateKey := reply]
  }

  /** Replies after the first never change what the validator returns. */
  lemma LaterRepliesIgnored(replies: seq<string>, later: seq<string>)
    requires |replies| > 0
    ensures Validate(replies + later) == Validate(replies) == Validate([replies[0]])
  {
  }

  /**
   * Removing every terminator can create a new one: the accepted text of
   * "DODONENE" is "DONE".
   */
  lemma AcceptedTextMayContainDone()
    ensures Validate(["DODONENE"]) == map[EntitiesKey := "DONE"]
  {
    var s := "DODONENE";
    assert OccursAt(s, Done, 2);
    assert s[..4] == "DODO" && s[1..][..4] == "ODON" && s[2..][..4] == Done;
    assert s[1..][1..] == s[2..] && s[2..][4..] == "NE";
    assert RemoveAll("NE", Done) == "NE";
    assert RemoveAll(s, Done) == "DONE";
  }

  /** The two branches of the prompt template, with the values they embed. */
  datatype Prompt =
    | InitialExtraction(text: string)
    | Revision(text: string, previous: string)

  /** Jinja's truth value of `entities_to_validate`: undefined and the empty string are false. */
  predicate Truthy(entitiesToValidate: Option<string>)
  {
    entitiesToValidate.Some? && |entitiesToValidate.value| > 0
  }

  /**
   * The `{% if entities_to_validate %}` template as written: the revision
   * branch embeds `entities_to_validate[0]`, which for the string the
   * validator emits is its first character.
   */
  function Compose(text: string, entitiesToValidate: Option<string>): (p: Prompt)
    ensures p.text == text
    ensures p.Revision? <==> Truthy(entitiesToValidate)
    ensures p.Revision? ==> |p.previous| == 1 && p.previous[0] == entitiesToValidate.value[0]
  {
    if Truthy(entitiesToValidate) then Revision(text, entitiesToValidate.value[..1])
    else InitialExtraction(text)
  }

  /** The template with the whole previous candidate embedded, as its wording intends. */
  function ComposeIntended(text: string, entitiesToValidate: Option<string>): (p: Prompt)
    ensures p.text == text
    ensures p.Revision? <==> Truthy(entitiesToValidate)
    ensures p.Revision? ==> p.previous == entitiesToValidate.value
  {
    if Truthy(entitiesToValidate) then Revision(text, entitiesToValidate.value)
    else InitialExtraction(text)
  }

  /**
   * As written, the revision prompt cannot tell apart two candidates that
   * share their first character: the model is shown `{` instead of its JSON.
   */
  lemma RevisionShowsFirstCharacterOnly(text: string)
    ensures Compose(text, Some("{\"Person\": []}")) == Compose(text, Some("{\"Location\": []}"))
    ensures Compose(text, Some("{\"Person\": []}")) == Revision(text, "{")
  {
  }

  /** With the intended template, distinct candidates give distinct revision prompts. */
  lemma IntendedRevisionKeepsCandidate(text: string, a: string, b: string)
    requires |a| > 0 && |b| > 0
    ensures ComposeIntended(text, Some(a)) == ComposeIntended(text, Some(b)) <==> a == b
  {
  }

  /** Both templates choose the same branch and embed the same text. */
  lemma SameBranchAsIntended(text: string, v: Option<string>)
    ensures Compose(text, v).Revision? == ComposeIntended(text, v).Revision?
    ensures Compose(text, v).text == ComposeIntended(text, v).text
  {
  }

  /** How one run of the reflecting pipeline ends. */
  datatype Outcome =
    | Accepted(entities: string)
    | LoopLimitReached

  /**
   * One run of the reflecting pipeline. The LLM is an oracle: `llm[j]` is
   * the list of replies it gives to the j-th prompt. Each round composes a
   * prompt from the text and the candidate sent back by the validator,
   * calls the LLM once and validates its replies; a rejected candidate is
   * fed back to the prompt builder. `prompts` is the list of prompts sent,
   * one per LLM call.
   */
  method Reflect(text: string, llm: seq<seq<string>>, maxLoops: nat)
    returns (outcome: Outcome, prompts: seq<Prompt>)
    requires |llm| >= maxLoops
    requires forall j :: 0 <= j < |llm| ==> |llm[j]| > 0
    ensures |prompts| <= maxLoops
    ensures |prompts| > 0 ==> prompts[0] == InitialExtraction(text)
    ensures forall j :: 0 < j < |prompts| ==> prompts[j] == Compose(text, Some(llm[j - 1][0]))
    ensures forall j :: 0 <= j < |prompts| - 1 ==> !Contains(llm[j][0], Done)
    ensures outcome.Accepted? ==>
      |prompts| > 0 && Contains(llm[|prompts| - 1][0], Done)
      && Validate(llm[|prompts| - 1]) == map[EntitiesKey := outcome.entities]
    ensures outcome.LoopLimitReached? ==>
      |prompts| == maxLoops && forall j :: 0 <= j < maxLoops ==> !Contains(llm[j][0], Done)
  {
    var pending: Option<string> := None;
    prompts := [];
    while |prompts| < maxLoops
      invariant |prompts| <= maxLoops
      invariant |prompts| > 0 ==> prompts[0] == InitialExtraction(text)
      invariant forall j :: 0 < j < |prompts| ==> prompts[j] == Compose(text, Some(llm[j - 1][0]))
      invariant forall j :: 0 <= j < |prompts| ==> !Contains(llm[j][0], Done)
      invariant pending == if |prompts| == 0 then None else Some(llm[|prompts| - 1][0])
      decreases maxLoops - |prompts|
    {
      var round := |prompts|;
      prompts := prompts + [Compose(text, pending)];
      var out := Validate(llm[round]);
      if EntitiesKey in out {
        return Accepted(out[EntitiesKey]), prompts;
      }
      pending := Some(out[ToValidateKey]);
    }
    outcome := LoopLimitReached;
  }

  /** With `maxLoops` set to the source's constant 10, the model makes at most ten LLM calls. */
  method ReflectWithSourceBound(text: string, llm: seq<seq<string>>)
    returns (outcome: Outcome, calls: nat)
    requires |llm| >= MaxLoopsAllowed
    requires forall j :: 0 <= j < |llm| ==> |llm[j]| > 0
    ensures calls <= 10
    ensures outcome.Accepted? ==> calls > 0 && Contains(llm[calls - 1][0], Done)
  {
    var prompts;
    outcome, prompts := Reflect(text, llm, MaxLoopsAllowed);
    calls := |prompts|;
  }
}
