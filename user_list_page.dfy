/** The user list page: the status and role filter selections and the user form. */
module UserListPage {
  import opened Wrappers
  import opened Lists

  datatype User = User(username: string, name: string, email: string, phone: string, status: string, role: string)

  /** The page state these handlers touch. */
  datatype PageState = PageState(
    selectedStatuses: seq<string>,
    selectedRoles: seq<string>,
    editingUser: Option<User>,
    formData: User,
    isUserFormOpen: bool)

  /** The form of a new user. */
  const BlankUser := User("", "", "", "", "Active", "Manager")

  /** `toggleStatus`. */
  function ToggleStatus(st: PageState, status: string): PageState
  {
    st.(selectedStatuses := Toggle(st.selectedStatuses, status))
  }

  /** `toggleRole`. */
  function ToggleRole(st: PageState, role: string): PageState
  {
    st.(selectedRoles := Toggle(st.selectedRoles, role))
  }

  /** `clearFilters`. */
  function ClearFilters(st: PageState): PageState
  {
    st.(selectedStatuses := [], selectedRoles := [])
  }

  /** `handleOpenForm`: the form shows the given user, or a blank active manager. */
  function OpenForm(st: PageState, user: Option<User>): PageState
  {
    if user.Some? then st.(editingUser := user, formData := user.value, isUserFormOpen := true)
    else st.(editingUser := None, formData := BlankUser, isUserFormOpen := true)
  }

  /** Toggling a status flips that status, keeps the other statuses in order, keeps a selection
      free of repeats, and leaves the roles and the form alone. */
  lemma ToggleStatusEffect(st: PageState, status: string)
    ensures var after := ToggleStatus(st, status);
            (status in after.selectedStatuses <==> status !in st.selectedStatuses) &&
            Keep(after.selectedStatuses, Other(status)) == Keep(st.selectedStatuses, Other(status)) &&
            (NoDuplicates(st.selectedStatuses) ==> NoDuplicates(after.selectedStatuses)) &&
            after.(selectedStatuses := st.selectedStatuses) == st
  {
    ToggleKeepsOthers(st.selectedStatuses, status);
    if NoDuplicates(st.selectedStatuses) {
      ToggleNoDuplicates(st.selectedStatuses, status);
    }
  }

  /** The same for roles, leaving the statuses alone. */
  lemma ToggleRoleEffect(st: PageState, role: string)
    ensures var after := ToggleRole(st, role);
            (role in after.selectedRoles <==> role !in st.selectedRoles) &&
            Keep(after.selectedRoles, Other(role)) == Keep(st.selectedRoles, Other(role)) &&
            (NoDuplicates(st.selectedRoles) ==> NoDuplicates(after.selectedRoles)) &&
            after.selectedStatuses == st.selectedStatuses &&
            after.(selectedRoles := st.selectedRoles) == st
  {
    ToggleKeepsOthers(st.selectedRoles, role);
    if NoDuplicates(st.selectedRoles) {
      ToggleNoDuplicates(st.selectedRoles, role);
    }
  }

  /** Ticking a status that was not selected and unticking it again restores the page. */
  lemma ToggleStatusTwice(st: PageState, status: string)
    requires status !in st.selectedStatuses
    ensures ToggleStatus(ToggleStatus(st, status), status) == st
  {
    ToggleTwice(st.selectedStatuses, status);
  }

  lemma ToggleRoleTwice(st: PageState, role: string)
    requires role !in st.selectedRoles
    ensures ToggleRole(ToggleRole(st, role), role) == st
  {
    ToggleTwice(st.selectedRoles, role);
  }

  /** Clearing empties both selections and nothing else; a status toggled afterwards is the only one selected. */
  lemma ClearFiltersEffect(st: PageState, status: string)
    ensures ClearFilters(st).selectedStatuses == [] && ClearFilters(st).selectedRoles == []
    ensures ClearFilters(st).(selectedStatuses := st.selectedStatuses, selectedRoles := st.selectedRoles) == st
    ensures ToggleStatus(ClearFilters(st), status).selectedStatuses == [status]
  {
  }

  /** The form is open afterwards, holds the given user and marks it as edited, or, without one,
      holds empty fields with status "Active" and role "Manager" and marks nothing as edited. */
  lemma OpenFormEffect(st: PageState, user: Option<User>)
    ensures var after := OpenForm(st, user);
            after.isUserFormOpen &&
            after.editingUser == user &&
            (user.Some? ==> after.formData == user.value) &&
            (user.None? ==> after.formData.username == "" && after.formData.name == "" &&
                            after.formData.email == "" && after.formData.phone == "" &&
                            after.formData.status == "Active" && after.formData.role == "Manager") &&
            after.selectedStatuses == st.selectedStatuses && after.selectedRoles == st.selectedRoles
  {
  }
}
