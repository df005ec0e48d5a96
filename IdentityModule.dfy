/** The identity page (components/IdentityModule.tsx): editing the archetype and the
    philosophy, and adding to and removing from the four lists of the profile. */
module IdentityModule {
  import opened Types
  import Strings

  /** `editingSection`, when not `null`. */
  datatype Section = Philosophy | Archetype

  /** The four list fields of the profile. */
  datatype ListField = Values | Principles | AntiGoals | LongTermGoals

  /** `profile[field]`. */
  function Get(p: IdentityProfile, f: ListField): seq<string> {
    match f
    case Values => p.values
    case Principles => p.principles
    case AntiGoals => p.antiGoals
    case LongTermGoals => p.longTermGoals
  }

  /** `{ ...profile, [field]: list }`: that list is replaced and nothing else changes. */
  function Set(p: IdentityProfile, f: ListField, list: seq<string>): (r: IdentityProfile)
    ensures Get(r, f) == list
    ensures forall g :: g != f ==> Get(r, g) == Get(p, g)
    ensures r.name == p.name && r.archetype == p.archetype && r.philosophy == p.philosophy
  {
    match f
    case Values => p.(values := list)
    case Principles => p.(principles := list)
    case AntiGoals => p.(antiGoals := list)
    case LongTermGoals => p.(longTermGoals := list)
  }

  /** Setting a list to what it already is changes nothing. */
  lemma SetGet(p: IdentityProfile, f: ListField)
    ensures Set(p, f, Get(p, f)) == p
  {
  }

  // ---------------------------------------------------------------------------
  // Text fields

  /** The text field being edited, and its draft. */
  datatype Editing = Editing(section: Option<Section>, tempText: string)

  /** The edit buttons: the section opens with its current text as the draft. */
  function StartEdit(p: IdentityProfile, s: Section): (e: Editing)
    ensures e.section == Some(s)
    ensures e.tempText == if s == Philosophy then p.philosophy else p.archetype
  {
    Editing(Some(s), if s == Philosophy then p.philosophy else p.archetype)
  }

  datatype Saved = Saved(profile: IdentityProfile, editing: Option<Section>)

  /** `saveText`: the draft goes into the section being edited, and editing ends. */
  function SaveText(p: IdentityProfile, e: Editing): (s: Saved)
    ensures s.editing == None
    ensures e.section == Some(Philosophy) ==> s.profile == p.(philosophy := e.tempText)
    ensures e.section == Some(Archetype) ==> s.profile == p.(archetype := e.tempText)
    ensures e.section == None ==> s.profile == p
  {
    match e.section
    case Some(Philosophy) => Saved(p.(philosophy := e.tempText), None)
    case Some(Archetype) => Saved(p.(archetype := e.tempText), None)
    case None => Saved(p, None)
  }

  /** Opening a section and committing without typing leaves the profile as it was. */
  lemma EditWithoutChange(p: IdentityProfile, s: Section)
    ensures SaveText(p, StartEdit(p, s)) == Saved(p, None)
  {
  }

  /** Committing a draft and reopening the section shows the draft. */
  lemma SaveThenReopen(p: IdentityProfile, e: Editing)
    requires e.section.Some?
    ensures StartEdit(SaveText(p, e).profile, e.section.value).tempText == e.tempText
  {
  }

  // ---------------------------------------------------------------------------
  // Lists

  /** The profile and the input box after `addItem`. */
  datatype Appended = Appended(profile: IdentityProfile, input: string)

  /** `addItem`: a blank input changes nothing; otherwise its trimmed text goes at the end
      of the list and the input is cleared. */
  function AddItem(p: IdentityProfile, f: ListField, value: string): (a: Appended)
    ensures Strings.AllSpace(value) ==> a == Appended(p, value)
    ensures !Strings.AllSpace(value) ==>
      a.input == "" && Get(a.profile, f) == Get(p, f) + [Strings.Trim(value)]
      && Strings.Trim(value) != ""
      && (forall g :: g != f ==> Get(a.profile, g) == Get(p, g))
      && a.profile.name == p.name && a.profile.archetype == p.archetype && a.profile.philosophy == p.philosophy
  {
    Strings.TrimEmptyIffAllSpace(value);
    var v := Strings.Trim(value);
    if v == "" then Appended(p, value) else Appended(Set(p, f, Get(p, f) + [v]), "")
  }

  /** Where `splice(index, 1)` starts: a negative index counts from the end, and an index
      past the end is clamped to the length. */
  function SpliceStart(len: nat, index: int): (k: nat)
    ensures k <= len
    ensures 0 <= index <= len ==> k == index
    ensures -(len as int) <= index < 0 ==> k == len + index
  {
    if index < 0 then (if len + index < 0 then 0 else len + index)
    else if index < len then index else len
  }

  /** `list.splice(index, 1)` on a copy of the list. The copy is never shared, so its
      update in place is modelled as the value it leaves. */
  function RemoveAt(list: seq<string>, index: int): seq<string> {
    var k := SpliceStart(|list|, index);
    if k < |list| then list[..k] + list[k + 1..] else list
  }

  /** A valid index removes exactly that element and keeps the others in order; an index
      at or past the end removes nothing. */
  lemma RemoveAtSpec(list: seq<string>, index: int)
    ensures var r := RemoveAt(list, index);
      (0 <= index < |list| ==>
        |r| == |list| - 1
        && (forall j :: 0 <= j < index ==> r[j] == list[j])
        && (forall j :: index <= j < |r| ==> r[j] == list[j + 1]))
      && (index >= |list| ==> r == list)
      && (list != [] ==> RemoveAt(list, -1) == list[..|list| - 1])
  {
  }

  /** `removeItem`: that list loses the element, and nothing else changes. */
  function RemoveItem(p: IdentityProfile, f: ListField, index: int): (r: IdentityProfile)
    ensures Get(r, f) == RemoveAt(Get(p, f), index)
    ensures forall g :: g != f ==> Get(r, g) == Get(p, g)
    ensures r.name == p.name && r.archetype == p.archetype && r.philosophy == p.philosophy
  {
    Set(p, f, RemoveAt(Get(p, f), index))
  }

  /** Adding an item and then removing the last position gives back the original profile. */
  lemma AddThenRemove(p: IdentityProfile, f: ListField, value: string)
    requires !Strings.AllSpace(value)
    ensures RemoveItem(AddItem(p, f, value).profile, f, |Get(p, f)|) == p
  {
    var l := Get(p, f);
    var q := AddItem(p, f, value).profile;
    assert Get(q, f)[..|l|] == l;
    assert RemoveAt(Get(q, f), |l|) == l;
    SetGet(p, f);
  }
}
