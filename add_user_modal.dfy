/**
 * The "Add New User" dialog of the user directory: a form edited one field
 * at a time, a submit that hands a new user to the directory only when the
 * required fields are filled, and a cancel; both reset the form.
 */
module AddUserModal {
  import opened Common
  import opened UserDirectory

  datatype AddUserForm = AddUserForm(name: Text, email: Text, role: Text, className: Text, status: Text)

  /** The form's fields, named as handleInputChange receives them. */
  datatype Field = NameField | EmailField | RoleField | ClassField | StatusField

  /** Empty fields, status "Active". */
  const INITIAL_FORM := AddUserForm("", "", "", "", "Active")

  function FieldOf(f: AddUserForm, k: Field): Text {
    match k
    case NameField => f.name
    case EmailField => f.email
    case RoleField => f.role
    case ClassField => f.className
    case StatusField => f.status
  }

  /** `{...prev, [field]: value}` */
  function WithField(f: AddUserForm, k: Field, value: Text): (g: AddUserForm)
    ensures FieldOf(g, k) == value
    ensures forall other :: other != k ==> FieldOf(g, other) == FieldOf(f, other)
  {
    match k
    case NameField => f.(name := value)
    case EmailField => f.(email := value)
    case RoleField => f.(role := value)
    case ClassField => f.(className := value)
    case StatusField => f.(status := value)
  }

  /** A form is determined by its five fields. */
  lemma FormByFields(f: AddUserForm, g: AddUserForm)
    requires forall k :: FieldOf(f, k) == FieldOf(g, k)
    ensures f == g
  {
    assert FieldOf(f, NameField) == FieldOf(g, NameField);
    assert FieldOf(f, EmailField) == FieldOf(g, EmailField);
    assert FieldOf(f, RoleField) == FieldOf(g, RoleField);
    assert FieldOf(f, ClassField) == FieldOf(g, ClassField);
    assert FieldOf(f, StatusField) == FieldOf(g, StatusField);
  }

  /** Typing a field's old value back leaves the form as it was. */
  lemma WithFieldRestores(f: AddUserForm, k: Field, value: Text)
    ensures WithField(WithField(f, k, value), k, FieldOf(f, k)) == f
  {
    var g := WithField(WithField(f, k, value), k, FieldOf(f, k));
    FormByFields(g, f);
  }

  /** handleSubmit's guard: name, e-mail and role are required; class is not. */
  predicate MaySubmit(f: AddUserForm) {
    f.name != [] && f.email != [] && f.role != []
  }

  /** The user handed to the directory: the form's fields, the given id, and "Never" as last login. */
  function NewUser(id: Text, f: AddUserForm): (u: DirectoryUser)
    ensures u.id == id && u.lastLogin == "Never"
    ensures u.name == f.name && u.email == f.email && u.role == f.role
    ensures u.className == f.className && u.status == f.status
  {
    DirectoryUser(id, f.name, f.email, f.role, f.className, f.status, "Never")
  }

  /**
   * A user added with the dialog's initial status and no search text is
   * listed whenever the role filter names its role (or is "all") and the
   * status filter is "all" or "active".
   */
  lemma NewUserListed(id: Text, f: AddUserForm, roleFilter: Text, statusFilter: Text)
    requires f.status == "Active"
    requires roleFilter == "all" || roleFilter == Lower(f.role)
    requires statusFilter == "all" || statusFilter == "active"
    ensures Listed(NewUser(id, f), "", roleFilter, statusFilter)
  {
    IncludesEmpty(Lower(f.name));
    LowerIdempotent(f.role);
  }

  class AddUserModalState {
    var formData: AddUserForm

    constructor()
      ensures formData == INITIAL_FORM
    {
      formData := INITIAL_FORM;
    }

    /** handleInputChange: only the named field changes. */
    method InputChange(field: Field, value: Text)
      modifies this`formData
      ensures formData == WithField(old(formData), field, value)
    {
      formData := WithField(formData, field, value);
    }

    /**
     * handleSubmit, with `id` the text of the clock reading: with the
     * required fields filled, the new user goes to the directory, the form
     * resets and the dialog asks to close; otherwise nothing happens.
     */
    method Submit(id: Text) returns (added: Option<DirectoryUser>, close: bool)
      modifies this`formData
      ensures added.Some? <==> MaySubmit(old(formData))
      ensures close <==> added.Some?
      ensures added.Some? ==> added.value == NewUser(id, old(formData)) && formData == INITIAL_FORM
      ensures added.None? ==> formData == old(formData)
    {
      if MaySubmit(formData) {
        added := Some(NewUser(id, formData));
        formData := INITIAL_FORM;
        close := true;
      } else {
        added, close := None, false;
      }
    }

    /** handleCancel: reset and close, adding nothing. */
    method Cancel() returns (close: bool)
      modifies this`formData
      ensures formData == INITIAL_FORM && close
    {
      formData := INITIAL_FORM;
      close := true;
    }
  }

  /**
   * The dialog wired to the directory page: a successful submit puts the new
   * user at the top of the list and closes the dialog; otherwise the page
   * is untouched.
   */
  method SubmitToDirectory(modal: AddUserModalState, page: UserDirectoryPage, id: Text) returns (toast: Option<Text>)
    modifies modal`formData, page`users, page`isAddModalOpen
    ensures MaySubmit(old(modal.formData)) ==>
      page.users == [NewUser(id, old(modal.formData))] + old(page.users) && !page.isAddModalOpen &&
      modal.formData == INITIAL_FORM && toast == Some(AddedToast(NewUser(id, old(modal.formData))))
    ensures !MaySubmit(old(modal.formData)) ==>
      page.users == old(page.users) && page.isAddModalOpen == old(page.isAddModalOpen) &&
      modal.formData == old(modal.formData) && toast.None?
  {
    var added, close := modal.Submit(id);
    toast := None;
    if added.Some? {
      var t := page.AddUser(added.value);
      toast := Some(t);
    }
    if close {
      page.CloseModal();
    }
  }
}
