/** The decision journal (components/DecisionJournal.tsx): committing the form as a new
    entry, removing entries, and the pro and con lists of the form. */
module DecisionJournal {
  import opened Types
  import Seqs

  /** The form's `newDecision`. Every field of the partial record is set by the form from
      the start, so each is a plain value here. */
  datatype Form = Form(title: string, context: string, pros: seq<string>, cons: seq<string>, impact: Level)

  /** The form when the page opens and after each commit. */
  const BlankForm: Form := Form("", "", [], [], Medium)

  /** The journal, the form and whether the form's modal is open. */
  datatype Journal = Journal(decisions: seq<Decision>, form: Form, showAddModal: bool)

  /** `handleAddDecision`, with the fresh id and the clock as parameters. Only an empty title
      is refused: the title is not trimmed, so a title of blanks is accepted. */
  function AddDecision(j: Journal, id: string, now: int): (r: Journal)
    ensures j.form.title == "" ==> r == j
    ensures j.form.title != "" ==>
      |r.decisions| == |j.decisions| + 1 && r.decisions[1..] == j.decisions
      && r.decisions[0] == Decision(id, j.form.title, now, j.form.context, j.form.pros, j.form.cons, j.form.impact)
      && r.form == BlankForm && !r.showAddModal
  {
    if j.form.title == "" then j
    else
      var f := j.form;
      Journal([Decision(id, f.title, now, f.context, f.pros, f.cons, f.impact)] + j.decisions, BlankForm, false)
  }

  /** A commit from the blank form adds nothing; a form whose title is only blanks is
      committed. */
  lemma BlankAndSpaceTitles(decisions: seq<Decision>, show: bool, id: string, now: int)
    ensures AddDecision(Journal(decisions, BlankForm, show), id, now).decisions == decisions
    ensures |AddDecision(Journal(decisions, BlankForm.(title := " "), show), id, now).decisions| == |decisions| + 1
  {
  }

  /** `removeDecision`: `prev.filter(d => d.id !== id)`. */
  function RemoveDecision(decisions: seq<Decision>, id: string): seq<Decision> {
    Seqs.Filter(decisions, (d: Decision) => d.id != id)
  }

  /** Every entry with that id goes, and only those. */
  lemma RemoveDecisionSpec(decisions: seq<Decision>, id: string)
    ensures forall d :: d in RemoveDecision(decisions, id) <==> d in decisions && d.id != id
    ensures (forall i :: 0 <= i < |decisions| ==> decisions[i].id != id) ==> RemoveDecision(decisions, id) == decisions
  {
    var p := (d: Decision) => d.id != id;
    forall d ensures d in RemoveDecision(decisions, id) <==> d in decisions && d.id != id {
      Seqs.FilterMembers(decisions, p, d);
    }
    Seqs.FilterPasses(decisions, p);
  }

  /** An entry just committed is removed again by its id, when the id is fresh. */
  lemma AddThenRemove(j: Journal, id: string, now: int)
    requires j.form.title != ""
    requires forall i :: 0 <= i < |j.decisions| ==> j.decisions[i].id != id
    ensures RemoveDecision(AddDecision(j, id, now).decisions, id) == j.decisions
  {
    var p := (d: Decision) => d.id != id;
    var r := AddDecision(j, id, now).decisions;
    assert r == [r[0]] + j.decisions;
    Seqs.FilterUnfold(r[0], j.decisions, p);
    Seqs.FilterPasses(j.decisions, p);
  }

  // ---------------------------------------------------------------------------
  // Pros and cons

  /** The form and the input box after a pro or con is added. */
  datatype Listed = Listed(form: Form, input: string)

  /** The plus button or Enter in the pros box: the input goes at the end of the pros, even
      when it is empty, and the box is cleared. */
  function AddPro(f: Form, input: string): (r: Listed)
    ensures r.form.pros == f.pros + [input] && r.input == ""
    ensures r.form.(pros := f.pros) == f
  {
    Listed(f.(pros := f.pros + [input]), "")
  }

  /** The same for the cons box. */
  function AddCon(f: Form, input: string): (r: Listed)
    ensures r.form.cons == f.cons + [input] && r.input == ""
    ensures r.form.(cons := f.cons) == f
  {
    Listed(f.(cons := f.cons + [input]), "")
  }

  /** Pros and cons are independent lists: adding to one and then the other gives the same
      form in either order. */
  lemma ProConCommute(f: Form, pro: string, con: string)
    ensures AddCon(AddPro(f, pro).form, con).form == AddPro(AddCon(f, con).form, pro).form
  {
  }
}
