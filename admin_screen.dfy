/**
 * The admin screen of src/ContentManager.tsx as a state holder: the key
 * buffer and the login flags, the login and credentials forms, the stored
 * credentials, the published content and the copy being edited. Writes to
 * the store are a `saved` parameter: true when the write went through.
 */
module AdminScreen {
  import opened Wrappers
  import opened Admin

  const WrongCredentials := "Usuário ou senha incorretos"

  const DefaultTitle := "Crescer - Bitcoin Holding"
  const DefaultSubtitle := "Estratégias Inteligentes para Crescimento Sustentável"
  const DefaultDescription := "Nossa plataforma oferece soluções inovadoras em investimentos digitais, focando no crescimento de longo prazo através de estratégias consolidadas no mercado de criptomoedas."

  class Screen {
    var keySequence: string
    var showLogin: bool
    var isAdmin: bool
    var isEditing: bool
    var loginForm: Credentials
    var showCredentialsEditor: bool
    var newCredentials: Credentials
    var error: string
    var adminCredentials: Credentials
    var content: Content
    var editedContent: Content

    /** The key buffer never holds as many characters as the secret. */
    predicate Valid()
      reads this`keySequence
    {
      |keySequence| < |Secret|
    }

    /** The state on mount: default credentials admin/admin123 and the default page with no records. */
    constructor ()
      ensures Valid()
      ensures keySequence == "" && !showLogin && !isAdmin && !isEditing && !showCredentialsEditor && error == ""
      ensures loginForm == Credentials("", "") && newCredentials == Credentials("", "")
      ensures adminCredentials == Credentials("admin", "admin123")
      ensures content == Content(DefaultTitle, DefaultSubtitle, DefaultDescription, [])
      ensures editedContent == content
    {
      keySequence := "";
      showLogin := false;
      isAdmin := false;
      isEditing := false;
      loginForm := Credentials("", "");
      showCredentialsEditor := false;
      newCredentials := Credentials("", "");
      error := "";
      adminCredentials := Credentials("admin", "admin123");
      content := Content(DefaultTitle, DefaultSubtitle, DefaultDescription, []);
      editedContent := content;
    }

    /** handleKeyPress: one key through the secret-sequence gate. */
    method HandleKeyPress(key: string)
      requires Valid()
      modifies this`keySequence, this`showLogin
      ensures Valid()
      ensures Gate(keySequence, showLogin) == PressKey(Gate(old(keySequence), old(showLogin)), isAdmin, key)
    {
      if !isAdmin && !showLogin {
        if HasDigit(key) {
          var newSequence := keySequence + key;
          keySequence := newSequence;
          if newSequence == Secret {
            showLogin := true;
            keySequence := "";
          } else if |newSequence| >= |Secret| {
            keySequence := "";
          }
        }
      }
    }

    /**
     * The load on mount: a stored page replaces both the published content
     * and the edited copy, and stored credentials replace the defaults;
     * whatever is missing, or could not be read, keeps its value.
     */
    method Loaded(stored: Option<Content>, creds: Option<Credentials>)
      requires Valid()
      modifies this`content, this`editedContent, this`adminCredentials
      ensures Valid()
      ensures stored.Some? ==> content == stored.value && editedContent == stored.value
      ensures stored.None? ==> content == old(content) && editedContent == old(editedContent)
      ensures adminCredentials == if creds.Some? then creds.value else old(adminCredentials)
    {
      if stored.Some? {
        content := stored.value;
        editedContent := stored.value;
      }
      if creds.Some? {
        adminCredentials := creds.value;
      }
    }

    /**
     * handleLogin: matching credentials sign the admin in, hide the login
     * and clear the error and the form; anything else only sets the error.
     */
    method HandleLogin()
      requires Valid()
      ensures Valid()
      modifies this`isAdmin, this`showLogin, this`error, this`loginForm
      ensures CredentialsMatch(old(loginForm), adminCredentials) ==>
        isAdmin && !showLogin && error == "" && loginForm == Credentials("", "")
      ensures !CredentialsMatch(old(loginForm), adminCredentials) ==>
        isAdmin == old(isAdmin) && showLogin == old(showLogin) && loginForm == old(loginForm)
        && error == WrongCredentials
    {
      if loginForm.username == adminCredentials.username && loginForm.password == adminCredentials.password {
        isAdmin := true;
        showLogin := false;
        error := "";
        loginForm := Credentials("", "");
      } else {
        error := WrongCredentials;
      }
    }

    /** handleLogout: leaves admin mode, edit mode and the credentials editor. */
    method HandleLogout()
      requires Valid()
      ensures Valid()
      modifies this`isAdmin, this`isEditing, this`showCredentialsEditor
      ensures !isAdmin && !isEditing && !showCredentialsEditor
    {
      isAdmin := false;
      isEditing := false;
      showCredentialsEditor := false;
    }

    /** The edit button: start editing a fresh copy of the published content. */
    method StartEditing()
      requires Valid()
      ensures Valid()
      modifies this`editedContent, this`isEditing
      ensures editedContent == content && isEditing
    {
      editedContent := content;
      isEditing := true;
    }

    /** addBitcoinRecord: the edited copy gets one more record, last. */
    method AddBitcoinRecord(form: RecordForm, id: string)
      requires Valid()
      ensures Valid()
      modifies this`editedContent
      ensures editedContent == AddRecord(old(editedContent), form, id)
    {
      editedContent := editedContent.(records := editedContent.records + [NewRecord(form, id)]);
    }

    /** deleteRecord: the edited copy loses every record with the id. */
    method DeleteRecord(id: string)
      requires Valid()
      ensures Valid()
      modifies this`editedContent
      ensures editedContent == RemoveRecord(old(editedContent), id)
    {
      editedContent := RemoveRecord(editedContent, id);
    }

    /** handleSaveContent: once stored, the edited copy is published and editing ends; a failed write changes nothing. */
    method HandleSaveContent(saved: bool)
      requires Valid()
      ensures Valid()
      modifies this`content, this`isEditing
      ensures saved ==> content == editedContent && !isEditing
      ensures !saved ==> content == old(content) && isEditing == old(isEditing)
    {
      if saved {
        content := editedContent;
        isEditing := false;
      }
    }

    /** handleCancelEdit: the edited copy is thrown away and editing ends. */
    method HandleCancelEdit()
      requires Valid()
      ensures Valid()
      modifies this`editedContent, this`isEditing
      ensures editedContent == content && !isEditing
    {
      editedContent := content;
      isEditing := false;
    }

    /**
     * handleUpdateCredentials: attempted only when both new fields are
     * filled; once stored they replace the credentials, the editor closes and
     * its form is cleared.
     */
    method HandleUpdateCredentials(saved: bool)
      requires Valid()
      ensures Valid()
      modifies this`adminCredentials, this`showCredentialsEditor, this`newCredentials
      ensures old(newCredentials.username) != "" && old(newCredentials.password) != "" && saved ==>
        adminCredentials == old(newCredentials) && !showCredentialsEditor && newCredentials == Credentials("", "")
      ensures old(newCredentials.username) == "" || old(newCredentials.password) == "" || !saved ==>
        adminCredentials == old(adminCredentials) && showCredentialsEditor == old(showCredentialsEditor)
        && newCredentials == old(newCredentials)
    {
      if newCredentials.username != "" && newCredentials.password != "" && saved {
        adminCredentials := newCredentials;
        showCredentialsEditor := false;
        newCredentials := Credentials("", "");
      }
    }

    /** The content listener: the published content follows the store, and so does the copy unless it is being edited. */
    method ContentChanged(stored: Content)
      requires Valid()
      ensures Valid()
      modifies this`content, this`editedContent
      ensures content == stored
      ensures editedContent == if old(isEditing) then old(editedContent) else stored
    {
      content := stored;
      if !isEditing {
        editedContent := stored;
      }
    }
  }
}
