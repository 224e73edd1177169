/** The state updates of the profile editor
    (frontend/src/Components/profile/Profile.jsx): the skill list, the
    change handler for top-level fields and social links, the avatar chosen
    on save, and the link a social entry renders. */
module ProfileEditor {
  import opened Wrappers
  import opened Text

  /** The profile being edited (`editData`) or shown (`profileData`): the
      top-level text fields by name, the social links by key, and the skills. */
  datatype ProfileForm = ProfileForm(
    fields: map<string, string>,
    socialLinks: map<string, string>,
    skills: seq<string>)

  /** The form together with the skill input box (`currentSkill`). */
  datatype Editor = Editor(form: ProfileForm, currentSkill: string)

  const SOCIAL_PREFIX := "socialLinks."
  const AVATAR_FIELD := "avatar"

  predicate NoDuplicates(s: seq<string>) {
    forall i, j :: 0 <= i < j < |s| ==> s[i] != s[j]
  }

  // ---------------------------------------------------------------------------
  // Skills
  // ---------------------------------------------------------------------------

  /** `handleAddSkill`: the trimmed input is appended when it is non-empty and
      not already listed, and the input box is then cleared; otherwise nothing
      changes, the input included. */
  function AddSkill(e: Editor): (r: Editor)
    ensures var t := Trim(e.currentSkill);
      if t != [] && t !in e.form.skills
      then r.form == e.form.(skills := e.form.skills + [t]) && r.currentSkill == ""
      else r == e
  {
    var t := Trim(e.currentSkill);
    if t != [] && t !in e.form.skills then
      Editor(e.form.(skills := e.form.skills + [t]), "")
    else e
  }

  /** Adding a skill never creates a duplicate. */
  lemma AddSkillKeepsNoDuplicates(e: Editor)
    requires NoDuplicates(e.form.skills)
    ensures NoDuplicates(AddSkill(e).form.skills)
  {
  }

  /** `skills.filter(skill => skill !== skillToRemove)`. */
  function RemoveSkill(skills: seq<string>, skill: string): (r: seq<string>)
    ensures skill !in r
    ensures forall x :: x in r <==> x in skills && x != skill
    ensures |r| <= |skills|
  {
    if skills == [] then []
    else if skills[0] == skill then RemoveSkill(skills[1..], skill)
    else [skills[0]] + RemoveSkill(skills[1..], skill)
  }

  /** Removal works element by element and keeps the order: removing from a
      concatenation removes from each part. */
  lemma {:induction false} RemoveSkillDistributes(a: seq<string>, b: seq<string>, skill: string)
    ensures RemoveSkill(a + b, skill) == RemoveSkill(a, skill) + RemoveSkill(b, skill)
  {
    if a == [] {
      assert a + b == b;
    } else {
      assert (a + b)[1..] == a[1..] + b;
      RemoveSkillDistributes(a[1..], b, skill);
    }
  }

  /** Every other skill keeps its number of occurrences; the removed one has none. */
  lemma {:induction false} RemoveSkillCounts(skills: seq<string>, skill: string)
    ensures multiset(RemoveSkill(skills, skill)) == multiset(skills)[skill := 0]
  {
    if skills != [] {
      RemoveSkillCounts(skills[1..], skill);
      assert skills == [skills[0]] + skills[1..];
    }
  }

  /** A skill that is not listed leaves the list as it is. */
  lemma {:induction false} RemoveAbsentSkill(skills: seq<string>, skill: string)
    requires skill !in skills
    ensures RemoveSkill(skills, skill) == skills
  {
    if skills != [] {
      RemoveAbsentSkill(skills[1..], skill);
    }
  }

  /** Removing the skill just added restores the list from before the add. */
  lemma AddThenRemoveSkill(e: Editor)
    requires Trim(e.currentSkill) != [] && Trim(e.currentSkill) !in e.form.skills
    ensures RemoveSkill(AddSkill(e).form.skills, Trim(e.currentSkill)) == e.form.skills
  {
    var t := Trim(e.currentSkill);
    RemoveSkillDistributes(e.form.skills, [t], t);
    RemoveAbsentSkill(e.form.skills, t);
    assert RemoveSkill([t], t) == [];
  }

  /** `handleRemoveSkill` on the editor. */
  function RemoveSkillFrom(e: Editor, skill: string): (r: Editor)
    ensures r.form.skills == RemoveSkill(e.form.skills, skill)
    ensures r.form.fields == e.form.fields && r.form.socialLinks == e.form.socialLinks
    ensures r.currentSkill == e.currentSkill
  {
    e.(form := e.form.(skills := RemoveSkill(e.form.skills, skill)))
  }

  // ---------------------------------------------------------------------------
  // Field changes
  // ---------------------------------------------------------------------------

  /** The text before the first '.', i.e. `s.split('.')[0]`. */
  function UpToDot(s: string): (r: string)
    ensures |r| <= |s| && r == s[..|r|]
    ensures '.' !in r
    ensures |r| < |s| ==> s[|r|] == '.'
  {
    if s == [] || s[0] == '.' then [] else [s[0]] + UpToDot(s[1..])
  }

  /** `name.split('.')[1]` for a name that starts with "socialLinks.". */
  function SocialKey(name: string): (k: string)
    requires StartsWith(name, SOCIAL_PREFIX)
    ensures '.' !in k
    ensures '.' !in name[|SOCIAL_PREFIX|..] ==> k == name[|SOCIAL_PREFIX|..]
  {
    UpToDot(name[|SOCIAL_PREFIX|..])
  }

  /** The input names `handleChange` receives in this form. "skills" and
      "socialLinks" would replace a list or an object with text. */
  predicate IsTextFieldName(name: string) {
    name != "skills" && name != "socialLinks"
  }

  /** `handleChange({ name, value })`: a "socialLinks.k" name sets key `k` of
      the social links; any other name sets that top-level field. */
  function HandleChange(f: ProfileForm, name: string, value: string): (r: ProfileForm)
    requires IsTextFieldName(name)
    ensures r.skills == f.skills
    ensures StartsWith(name, SOCIAL_PREFIX) ==>
      && r.fields == f.fields
      && r.socialLinks.Keys == f.socialLinks.Keys + {SocialKey(name)}
      && r.socialLinks[SocialKey(name)] == value
      && (forall k :: k in f.socialLinks && k != SocialKey(name) ==> r.socialLinks[k] == f.socialLinks[k])
    ensures !StartsWith(name, SOCIAL_PREFIX) ==>
      && r.socialLinks == f.socialLinks
      && r.fields.Keys == f.fields.Keys + {name}
      && r.fields[name] == value
      && (forall k :: k in f.fields && k != name ==> r.fields[k] == f.fields[k])
  {
    if StartsWith(name, SOCIAL_PREFIX) then
      f.(socialLinks := f.socialLinks[SocialKey(name) := value])
    else
      f.(fields := f.fields[name := value])
  }

  /** The social input for key `k` edits exactly `socialLinks[k]`. */
  lemma SocialInputEditsItsKey(f: ProfileForm, k: string, value: string)
    requires '.' !in k
    ensures HandleChange(f, SOCIAL_PREFIX + k, value) == f.(socialLinks := f.socialLinks[k := value])
  {
    var name := SOCIAL_PREFIX + k;
    assert name[..|SOCIAL_PREFIX|] == SOCIAL_PREFIX;
    assert name[|SOCIAL_PREFIX|..] == k;
  }

  // ---------------------------------------------------------------------------
  // Saving
  // ---------------------------------------------------------------------------

  /** A string is truthy in JavaScript when it is present and non-empty. */
  predicate Truthy(s: Option<string>) {
    s.Some? && s.value != ""
  }

  /** The editor's avatar state: the pending preview and whether a file is held. */
  datatype AvatarState = AvatarState(preview: Option<string>, fileHeld: bool)

  /** What a save leaves behind: the profile shown, the cleared avatar state,
      and the editor closed. */
  datatype Saved = Saved(profile: ProfileForm, avatar: AvatarState, editing: bool)

  /** `handleSaveProfile`: the shown profile becomes the edited one, with the
      preview as avatar when there is one and the edited avatar otherwise;
      the preview and the file are cleared and editing ends. */
  function SaveProfile(edit: ProfileForm, a: AvatarState): (r: Saved)
    ensures Truthy(a.preview) ==> r.profile == edit.(fields := edit.fields[AVATAR_FIELD := a.preview.value])
    ensures !Truthy(a.preview) ==> r.profile == edit
    ensures r.avatar == AvatarState(None, false) && !r.editing
  {
    var profile :=
      if Truthy(a.preview) then edit.(fields := edit.fields[AVATAR_FIELD := a.preview.value]) else edit;
    Saved(profile, AvatarState(None, false), false)
  }

  /** Apart from the avatar, a save keeps every edited field, link and skill. */
  lemma SaveKeepsEdits(edit: ProfileForm, a: AvatarState)
    ensures var p := SaveProfile(edit, a).profile;
      && p.skills == edit.skills && p.socialLinks == edit.socialLinks
      && (forall k :: k in edit.fields && k != AVATAR_FIELD ==> k in p.fields && p.fields[k] == edit.fields[k])
  {
  }

  // ---------------------------------------------------------------------------
  // Social links
  // ---------------------------------------------------------------------------

  /** `SocialLinkDisplay`'s href: nothing for a missing or empty url; the url
      itself when it starts with "http"; otherwise "https://" in front. */
  function SocialLinkHref(url: Option<string>): (r: Option<string>)
    ensures r.None? <==> !Truthy(url)
    ensures r.Some? ==> StartsWith(r.value, "http")
    ensures r.Some? && StartsWith(url.value, "http") ==> r.value == url.value
    ensures r.Some? && !StartsWith(url.value, "http") ==> r.value == "https://" + url.value
  {
    if !Truthy(url) then None
    else if StartsWith(url.value, "http") then Some(url.value)
    else
      var h := "https://" + url.value;
      assert h[..4] == "http";
      Some(h)
  }

  /** Normalising an href a second time changes nothing. */
  lemma SocialLinkHrefIdempotent(url: Option<string>)
    requires Truthy(url)
    ensures SocialLinkHref(SocialLinkHref(url)) == SocialLinkHref(url)
  {
  }
}
