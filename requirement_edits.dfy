/** Editing a requirement list before it is saved to the store, as both the
    settings page (registration catalogs) and the library page (revision
    catalogs) do: change one field of one entry, append a fresh entry, delete
    the entry at a position. */
module RequirementEdits {
  import opened Strings
  import opened Types

  /** One field of a requirement with its new value (`[field]: value`). */
  datatype ReqField =
    | IdField(id: string)
    | CaptionField(caption: string)
    | DescriptionField(description: string)
    | RequiredField(required: bool)
    | AcceptedTypesField(acceptedTypes: string)

  /** `{ ...req, [field]: value }`: the named field takes the value, every
      other field keeps its own. */
  function WithField(req: FileRequirement, f: ReqField): (r: FileRequirement)
    ensures r.id == (if f.IdField? then f.id else req.id)
    ensures r.caption == (if f.CaptionField? then f.caption else req.caption)
    ensures r.description == (if f.DescriptionField? then Some(f.description) else req.description)
    ensures r.required == (if f.RequiredField? then f.required else req.required)
    ensures r.acceptedTypes == (if f.AcceptedTypesField? then Some(f.acceptedTypes) else req.acceptedTypes)
  {
    match f
    case IdField(v) => req.(id := v)
    case CaptionField(v) => req.(caption := v)
    case DescriptionField(v) => req.(description := Some(v))
    case RequiredField(v) => req.(required := v)
    case AcceptedTypesField(v) => req.(acceptedTypes := Some(v))
  }

  /** Writing a field twice keeps only the second value. */
  lemma WithFieldTwice(req: FileRequirement, f: ReqField, g: ReqField)
    requires f.IdField? == g.IdField? && f.CaptionField? == g.CaptionField?
    requires f.DescriptionField? == g.DescriptionField? && f.RequiredField? == g.RequiredField?
    ensures WithField(WithField(req, f), g) == WithField(req, g)
  {
  }

  /** The list after changing one field of the entry at index: that entry
      changes, every other entry stays where it was. */
  function ChangeAt(reqs: seq<FileRequirement>, index: nat, f: ReqField): (r: seq<FileRequirement>)
    requires index < |reqs|
    ensures |r| == |reqs| && r[index] == WithField(reqs[index], f)
    ensures forall i :: 0 <= i < |reqs| && i != index ==> r[i] == reqs[i]
  {
    reqs[index := WithField(reqs[index], f)]
  }

  /** The fresh entry the add button creates: the id is the prefix followed by
      the clock reading, it is mandatory and accepts PDF files. */
  function NewRequirement(prefix: string, caption: string, now: nat): (r: FileRequirement)
    ensures |r.id| > |prefix| && r.id[..|prefix|] == prefix
    ensures r.caption == caption && r.required
    ensures r.description == Some("") && r.acceptedTypes == Some(".pdf")
  {
    FileRequirement(prefix + NatToString(now), caption, Some(""), true, Some(".pdf"))
  }

  /** `reqs.filter((_, i) => i !== index)`: the entry at index goes, the
      others keep their order; an index past the end removes nothing. */
  function RemoveAt(reqs: seq<FileRequirement>, index: nat): (r: seq<FileRequirement>)
    ensures index < |reqs| ==> |r| == |reqs| - 1
    ensures index < |reqs| ==> forall i :: 0 <= i < index ==> r[i] == reqs[i]
    ensures index < |reqs| ==> forall i :: index <= i < |r| ==> r[i] == reqs[i + 1]
    ensures index >= |reqs| ==> r == reqs
  {
    if index < |reqs| then reqs[..index] + reqs[index + 1..] else reqs
  }

  /** Deleting an entry loses exactly that entry. */
  lemma RemoveAtMultiset(reqs: seq<FileRequirement>, index: nat)
    requires index < |reqs|
    ensures multiset(RemoveAt(reqs, index)) + multiset{reqs[index]} == multiset(reqs)
  {
    assert reqs == reqs[..index] + [reqs[index]] + reqs[index + 1..];
  }

  /** Appending a fresh entry and deleting the last position gives the list
      back. */
  lemma AddThenDeleteLast(reqs: seq<FileRequirement>, x: FileRequirement)
    ensures RemoveAt(reqs + [x], |reqs|) == reqs
  {
  }

  /** The list being edited on a requirements tab and whether it differs from
      what was loaded. */
  class RequirementEditor {
    var requirements: seq<FileRequirement>
    var hasChanges: bool
    const idPrefix: string
    const newCaption: string

    constructor(loaded: seq<FileRequirement>, idPrefix: string, newCaption: string)
      ensures requirements == loaded && !hasChanges
      ensures this.idPrefix == idPrefix && this.newCaption == newCaption
    {
      requirements := loaded;
      hasChanges := false;
      this.idPrefix := idPrefix;
      this.newCaption := newCaption;
    }

    /** Loading the store's list (on a tab or phase switch). */
    method Load(loaded: seq<FileRequirement>)
      modifies this
      ensures requirements == loaded && !hasChanges
    {
      requirements := loaded;
      hasChanges := false;
    }

    method HandleReqChange(index: nat, f: ReqField)
      requires index < |requirements|
      modifies this
      ensures requirements == ChangeAt(old(requirements), index, f) && hasChanges
    {
      var updated := requirements;
      updated := updated[index := WithField(updated[index], f)];
      requirements := updated;
      hasChanges := true;
    }

    method HandleAddReq(now: nat)
      modifies this
      ensures requirements == old(requirements) + [NewRequirement(idPrefix, newCaption, now)] && hasChanges
    {
      var newReq := FileRequirement(idPrefix + NatToString(now), newCaption, Some(""), true, Some(".pdf"));
      requirements := requirements + [newReq];
      hasChanges := true;
    }

    /** `confirmed` is the answer to the confirmation dialog. */
    method HandleDeleteReq(index: nat, confirmed: bool)
      modifies this
      ensures confirmed ==> requirements == RemoveAt(old(requirements), index) && hasChanges
      ensures !confirmed ==> requirements == old(requirements) && hasChanges == old(hasChanges)
    {
      if confirmed {
        requirements := RemoveAt(requirements, index);
        hasChanges := true;
      }
    }

    /** After the list was written to the store. */
    method MarkSaved()
      modifies this
      ensures requirements == old(requirements) && !hasChanges
    {
      hasChanges := false;
    }
  }
}
