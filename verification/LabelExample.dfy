/**
 Three records on which the order of the authorization loop shows: an account created by h, a
 question to that account signed by a stranger, and the answer of h to it.
 */
module LabelExample {
  import opened CausalGraph
  import opened EventRecords
  import opened Options
  import opened Usability
  import opened Authorization
  import opened Classification

  const HERE := Policy("h", "hk", "human")

  const CREATION := Event("c", "hk", 0, Content(
    HumanAccountCreate, InstallationPrivate, "h", None, None, None, [], [], "",
    AccountPayload(HumanAccount("a", "h", "hk", "home"))))

  const QUESTION := Event("q", "sk", 1, Content(
    Question, AccountAddressed, "s", Some(Address("s", "agent")), None, Some("a"), ["c"], ["c"], "", Opaque))

  const ANSWER := Event("r", "hk", 2, Content(
    Answer, AccountAddressed, "h", Some(Address("h", "human")), Some(Address("s", "agent")), Some("a"),
    ["c", "q"], ["c"], "q", Opaque))

  const LOG: Records := map[
    "c" := Record(CREATION, Projected), "q" := Record(QUESTION, Projected), "r" := Record(ANSWER, Projected)]

  lemma AllUsable()
    ensures forall id | id in LOG :: ParentsUsable(LOG, LOG[id].event)
  {
    UsableUnfolds(LOG, "c");
    UsableUnfolds(LOG, "q");
    assert Usable(LOG, "c") && Usable(LOG, "q");
  }

  lemma EverythingIsReady()
    ensures WithStatuses(LOG, DomainReadiness(LOG)) == LOG
  {
    AllUsable();
  }

  lemma AnswerStandsQuestionFalls()
    ensures Authorized(HERE, LOG, map[], ANSWER) && !Authorized(HERE, LOG, map[], QUESTION)
  {
    assert AuthorityAdmits(LOG, ANSWER, "c");
    assert forall a | a in ANSWER.content.authorities :: a == "c";
    assert "c" in QUESTION.content.authorities && !AuthorityAdmits(LOG, QUESTION, "c");
  }

  /** An authorized reply to a refused question gets the two labels in opposite orders. */
  lemma OppositeLabels(policy: Policy, access: Revocations, records: Records, one: seq<Id>, two: seq<Id>, id: Id)
    requires WellFormed(records) && WithStatuses(records, DomainReadiness(records)) == records
    requires IsProjected(records, id) && IsReply(records[id].event)
    requires Authorized(policy, records, access, records[id].event)
    requires var thread := records[id].event.content.threadId;
             ProjectedAs(records, thread, Question) && !Authorized(policy, records, access, records[thread].event)
    requires id in RootFirst(records, one) && id !in RootFirst(records, two)
    ensures DomainOutcome(policy, access, records, one)[id].status == Unauthorized
    ensures DomainOutcome(policy, access, records, two)[id].status == Invalid
  {
    var facts := FactsOf(policy, access, records);
    assert AuthorizedStatus(facts, id, false) == Projected && RootRefused(facts, records[id].event);
    OrderChangesOnlyLabels(policy, access, records, one, two, id);
  }

  lemma QuestionVisited()
    ensures "r" in RootFirst(LOG, ["c", "q", "r"]) && "r" !in RootFirst(LOG, ["c", "r", "q"])
  {
    var one := ["c", "q", "r"];
    assert one[1] == "q" && one[2] == "r";
  }

  lemma LogIsWellFormed()
    ensures WellFormed(LOG) && IsOrderOf(["c", "q", "r"], LOG) && IsOrderOf(["c", "r", "q"], LOG)
  {
  }

  /** Visiting the question first labels the answer unauthorized; visiting the answer first
      labels it invalid. */
  lemma LabelDependsOnOrder()
    ensures WellFormed(LOG) && IsOrderOf(["c", "q", "r"], LOG) && IsOrderOf(["c", "r", "q"], LOG)
    ensures DomainOutcome(HERE, map[], LOG, ["c", "q", "r"])["r"].status == Unauthorized
    ensures DomainOutcome(HERE, map[], LOG, ["c", "r", "q"])["r"].status == Invalid
  {
    LogIsWellFormed();
    EverythingIsReady();
    AnswerStandsQuestionFalls();
    QuestionVisited();
    OppositeLabels(HERE, map[], LOG, ["c", "q", "r"], ["c", "r", "q"], "r");
  }
}
