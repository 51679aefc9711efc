/** The book list page: what it renders for each auth state, and who sees "Add book". */
module BooksPage {
  import opened Wrappers
  import opened Text
  import opened Store
  import opened Auth
  import opened NewBookPage

  const StaffRoles: seq<string> := ["admin", "librarian"]

  /** `STAFF_ROLES.includes(role.toLowerCase())`. */
  predicate CanAddBook(role: string) {
    ToLower(role) in StaffRoles
  }

  /** What the page shows: a spinner, an error text, or the list with or without the button. */
  datatype View = Spinner | ErrorText(text: string) | BookList(addButton: bool)

  /** An empty error message is falsy, so it shows the list like no error at all. */
  function Render(s: AuthState): (v: View)
    ensures s.loading <==> v == Spinner
    ensures !s.loading && s.error.Some? && s.error.value != [] ==> v == ErrorText(s.error.value)
    ensures v.BookList? ==> (v.addButton <==> CanAddBook(s.role))
    ensures v.BookList? <==> !s.loading && (s.error.None? || s.error.value == [])
  {
    if s.loading then Spinner
    else if s.error.Some? && s.error.value != [] then ErrorText(s.error.value)
    else BookList(CanAddBook(s.role))
  }

  /** The list page's check is the add page's check after lower-casing. */
  lemma CanAddBookIsCaseBlind(role: string)
    ensures CanAddBook(role) <==> CanManage(ToLower(role))
  {
  }

  /** Whoever may use the add page also sees the button. */
  lemma CanManageShowsButton(role: string)
    requires CanManage(role)
    ensures CanAddBook(role)
  {
    assert ToLower(role) == role by {
      ToLowerOfLower(role);
    }
  }

  /** "ADMIN" sees the button but is turned away by the add page. */
  lemma UpperCaseAdmin()
    ensures CanAddBook("ADMIN") && !CanManage("ADMIN")
  {
    assert ToLower("ADMIN") == "admin";
  }

  /** The default role never sees the button. */
  lemma MemberCannotAdd()
    ensures !CanAddBook(DefaultRole)
  {
    assert ToLower(DefaultRole) == "member";
  }

  /** A signed-in user without a role row sees the list but no button. */
  lemma NoRoleRowNoButton(u: User, role: Option<string>)
    requires role.None? || role == Some([])
    ensures Render(Effect(Initial(), Session(u), RoleRow(role), NotCancelled)) == BookList(false)
  {
    MemberCannotAdd();
  }

  /** A failed role lookup shows its error, or the list for an empty message; never the button. */
  lemma RoleErrorNoButton(u: User, message: string)
    ensures Render(Effect(Initial(), Session(u), RoleError(message), NotCancelled))
         == if message != [] then ErrorText(message) else BookList(false)
  {
    MemberCannotAdd();
  }
}
