/** The profile page: the form values derived from the signed-in user, the
    cancel action, the avatar initial and the role label. */
module Profile {
  import opened Wrappers
  import opened Text
  import opened Records
  import AdminAccess

  /** The signed-in user as the frontend holds it; every field may be
      missing. */
  datatype AuthUser = AuthUser(
    username: Option<string>,
    email: Option<string>,
    fullName: Option<string>,
    firstName: Option<string>,
    lastName: Option<string>,
    mobile: Option<string>,
    phone: Option<string>,
    role: Option<string>)

  /** `v || ''` */
  function OrEmpty(v: Option<string>): (s: string)
    ensures v.None? ==> s == ""
    ensures v.Some? ==> s == v.value
  {
    if v.Some? then v.value else ""
  }

  /** A field is truthy when present and non-empty. */
  predicate Truthy(v: Option<string>) {
    OrEmpty(v) != ""
  }

  /** The full name: `full_name`, else the trimmed first and last name,
      else empty. */
  function DeriveFullName(u: AuthUser): (name: string)
    ensures Truthy(u.fullName) ==> name == u.fullName.value
    ensures !Truthy(u.fullName) && !Truthy(u.firstName) && !Truthy(u.lastName) ==> name == ""
    ensures !Truthy(u.fullName) ==> name == Trim(OrEmpty(u.firstName) + " " + OrEmpty(u.lastName))
  {
    if Truthy(u.fullName) then u.fullName.value
    else if Truthy(u.firstName) || Truthy(u.lastName) then Trim(OrEmpty(u.firstName) + " " + OrEmpty(u.lastName))
    else ""
  }

  /** A name built from the parts has no white space at either end. */
  lemma NameFromPartsIsTrimmed(u: AuthUser)
    requires !Truthy(u.fullName)
    ensures var n := DeriveFullName(u); n != "" ==> !IsSpace(n[0]) && !IsSpace(n[|n| - 1])
  {
    var n := DeriveFullName(u);
    if n != "" {
      var a := TrimStart(OrEmpty(u.firstName) + " " + OrEmpty(u.lastName));
      assert n == TrimEnd(a);
      assert n[0] == a[0];
    }
  }

  /** With one part missing, the name is the other part, trimmed: the
      joining space does not show. */
  lemma NameFromOnePart(u: AuthUser)
    requires !Truthy(u.fullName)
    ensures !Truthy(u.lastName) ==> DeriveFullName(u) == Trim(OrEmpty(u.firstName))
    ensures !Truthy(u.firstName) ==> DeriveFullName(u) == Trim(OrEmpty(u.lastName))
  {
    var f := OrEmpty(u.firstName);
    var l := OrEmpty(u.lastName);
    if !Truthy(u.lastName) {
      TrimSpaceEnds(f, ' ');
      assert f + " " + l == f + [' '];
    }
    if !Truthy(u.firstName) {
      TrimSpaceEnds(l, ' ');
      assert f + " " + l == [' '] + l;
    }
  }

  /** `mobile`, else `phone`, else empty. */
  function DeriveMobile(u: AuthUser): (m: string)
    ensures Truthy(u.mobile) ==> m == u.mobile.value
    ensures !Truthy(u.mobile) ==> m == OrEmpty(u.phone)
  {
    if Truthy(u.mobile) then u.mobile.value
    else if Truthy(u.phone) then u.phone.value
    else ""
  }

  /** The form's mobile field is filled exactly when the user record has a
      non-empty `mobile` or `phone`. */
  lemma MobileFilledIffKnown(u: AuthUser)
    ensures DeriveMobile(u) != "" <==> Truthy(u.mobile) || Truthy(u.phone)
  {
  }

  datatype FormData = FormData(fullName: string, email: string, mobile: string)

  /** The form values set when the user loads. */
  function FormFor(u: AuthUser): (f: FormData)
    ensures f.fullName == DeriveFullName(u) && f.mobile == DeriveMobile(u)
    ensures f.email == OrEmpty(u.email)
  {
    FormData(DeriveFullName(u), OrEmpty(u.email), DeriveMobile(u))
  }

  datatype PageState = PageState(form: FormData, editing: bool, message: string)

  /** `handleCancel` */
  function HandleCancel(s: PageState, u: AuthUser): (r: PageState)
    ensures r.form == FormFor(u) && !r.editing && r.message == ""
  {
    PageState(FormFor(u), false, "")
  }

  /** Cancel discards whatever was edited: from any two states it reaches
      the same one, the state the page loads into. */
  lemma CancelDiscardsEdits(s: PageState, t: PageState, u: AuthUser)
    ensures HandleCancel(s, u) == HandleCancel(t, u)
    ensures HandleCancel(HandleCancel(s, u), u) == HandleCancel(s, u)
    ensures HandleCancel(s, u).form == FormFor(u)
  {
  }

  /** `(fullName || email || username || 'U').charAt(0).toUpperCase()`,
      where the avatar computes its own `fullName`. */
  function AvatarInitial(u: AuthUser): (c: char)
    ensures !IsAsciiLower(c)
  {
    var fullName := if Truthy(u.fullName) then u.fullName.value
                    else Trim(OrEmpty(u.firstName) + " " + OrEmpty(u.lastName));
    var shown := if fullName != "" then fullName
                 else if Truthy(u.email) then u.email.value
                 else if Truthy(u.username) then u.username.value
                 else "U";
    Upper(shown[0])
  }

  /** The avatar's name is the form's full name, so the initial is that of
      the first non-empty of the derived name, email, username and "U". */
  lemma AvatarUsesDerivedName(u: AuthUser)
    ensures DeriveFullName(u) != "" ==> AvatarInitial(u) == Upper(DeriveFullName(u)[0])
    ensures DeriveFullName(u) == "" && Truthy(u.email) ==> AvatarInitial(u) == Upper(u.email.value[0])
    ensures DeriveFullName(u) == "" && !Truthy(u.email) && Truthy(u.username) ==>
      AvatarInitial(u) == Upper(u.username.value[0])
    ensures DeriveFullName(u) == "" && !Truthy(u.email) && !Truthy(u.username) ==> AvatarInitial(u) == 'U'
  {
    if !Truthy(u.fullName) && !Truthy(u.firstName) && !Truthy(u.lastName) {
      TrimEmptyIffBlank(" ");
      assert OrEmpty(u.firstName) + " " + OrEmpty(u.lastName) == " ";
    }
  }

  /** The "Account Type" field. */
  function RoleLabel(role: Option<string>): (shown: string)
    ensures role == Some("admin") ==> shown == "Administrator"
    ensures role == Some("super_admin") ==> shown == "Super Admin"
    ensures role != Some("admin") && role != Some("super_admin") ==> shown == "Customer"
  {
    if role == Some("admin") then "Administrator"
    else if role == Some("super_admin") then "Super Admin"
    else "Customer"
  }

  /** The label names the backend role, and it reads "Customer" exactly
      for the users the admin pages turn away. */
  lemma RoleLabelMatchesRoles(r: Role, role: Option<string>)
    ensures RoleLabel(Some(RoleValue(r))) ==
      match r
      case Customer => "Customer"
      case Admin => "Administrator"
      case SuperAdmin => "Super Admin"
    ensures RoleLabel(role) == "Customer" <==> !AdminAccess.HasAdminAccess(role)
  {
  }
}
