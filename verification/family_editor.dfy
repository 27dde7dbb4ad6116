/**
 * The family editor: it receives the member list and the `showFamily` flag and passes
 * both, one of them changed, to `onChange`.
 */
module FamilyEditor {
  import opened Wrappers
  import opened Content
  import Collections

  /** The add form's fields. */
  datatype MemberForm = MemberForm(name: string, relationship: string, description: string)

  /** The object handed to `onChange`. */
  datatype FamilySection = FamilySection(familyMembers: seq<FamilyMember>, showFamily: Option<bool>)

  /** `familyMembers || []`. */
  function Members(familyMembers: Option<seq<FamilyMember>>): seq<FamilyMember> {
    familyMembers.GetOr([])
  }

  /** `handleAddMember`: refused unless name and relationship are filled in; otherwise appended with the next order. */
  function AddMember(familyMembers: Option<seq<FamilyMember>>, showFamily: Option<bool>, form: MemberForm): (r: Edit<FamilySection>)
    ensures r.Refused? <==> form.name == "" || form.relationship == ""
    ensures r.Refused? ==> r.message == "Please fill in name and relationship"
    ensures r.Changed? ==>
              var before := Members(familyMembers);
              && r.value.showFamily == showFamily
              && |r.value.familyMembers| == |before| + 1 && r.value.familyMembers[..|before|] == before
              && r.value.familyMembers[|before|] == FamilyMember(form.name, form.relationship, form.description, |before|)
  {
    if form.name == "" || form.relationship == "" then Refused("Please fill in name and relationship")
    else
      var members := Members(familyMembers);
      Changed(FamilySection(members + [FamilyMember(form.name, form.relationship, form.description, |members|)], showFamily))
  }

  /** `handleRemoveMember`: the member at `index` is dropped, the others keep their order. */
  function RemoveMember(familyMembers: Option<seq<FamilyMember>>, showFamily: Option<bool>, index: int): (r: FamilySection)
    ensures r.showFamily == showFamily
    ensures 0 <= index < |Members(familyMembers)| ==>
              r.familyMembers == Members(familyMembers)[..index] + Members(familyMembers)[index + 1..]
    ensures !(0 <= index < |Members(familyMembers)|) ==> r.familyMembers == Members(familyMembers)
  {
    FamilySection(Collections.RemoveAt(Members(familyMembers), index), showFamily)
  }

  /** Removing the member just added gives back the list it was added to. */
  lemma RemoveUndoesAdd(familyMembers: Option<seq<FamilyMember>>, showFamily: Option<bool>, form: MemberForm)
    requires AddMember(familyMembers, showFamily, form).Changed?
    ensures var added := AddMember(familyMembers, showFamily, form).value;
            RemoveMember(Some(added.familyMembers), added.showFamily, |Members(familyMembers)|)
              == FamilySection(Members(familyMembers), showFamily)
  {
    var added := AddMember(familyMembers, showFamily, form).value;
    assert added.familyMembers[..|Members(familyMembers)|] == Members(familyMembers);
  }

  /** `handleToggleFamily`: the flag becomes `!showFamily`; the members are passed on unchanged. */
  function ToggleFamily(familyMembers: Option<seq<FamilyMember>>, showFamily: Option<bool>): (r: FamilySection)
    ensures r.familyMembers == Members(familyMembers)
    ensures r.showFamily == Some(showFamily != Some(true))
  {
    FamilySection(Members(familyMembers), Some(Negate(showFamily)))
  }
}
