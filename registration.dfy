/**
 * The page behind the registration form: the form's inputs and error elements, the
 * list stored under "usuarios", and the listing that can be shown or hidden. Each
 * method is one event handler (or helper) of the page.
 */
module Registration {
  import opened Wrappers
  import opened Text
  import opened Validation
  import opened Users

  datatype SubmitOutcome = Saved | Rejected | EmptyForm
  datatype ToggleOutcome = Hidden | Shown | EmptyList | NoList
  datatype ClearAllOutcome = NothingToDelete | AllDeleted | Declined

  class Page {
    /** The values typed into the inputs. */
    var inputs: FieldValues
    /** The text of each field's error element; empty exactly when it is hidden. */
    var errors: FieldValues
    /** `localStorage` under the key "usuarios": absent, or a list of users. */
    var store: Option<seq<User>>
    /** Whether the listing is displayed ('block'). */
    var visible: bool
    /** The blocks last drawn into the listing. */
    var listing: seq<Entry>

    /** While the listing is displayed, it shows the stored list as it is now. */
    ghost predicate Synced()
      reads this
    {
      visible ==> store.Some? && store.value != [] && listing == Entries(store.value)
    }

    /** The page as loaded, over whatever an earlier visit left in storage. */
    constructor (saved: Option<seq<User>>)
      ensures inputs == Blank && errors == Blank && store == saved
      ensures !visible && listing == []
      ensures Synced()
    {
      inputs := Blank;
      errors := Blank;
      store := saved;
      visible := false;
      listing := [];
    }

    /** The user types `v` into field `f`. */
    method EnterInput(f: Field, v: string)
      modifies this
      ensures inputs == old(inputs).With(f, v)
      ensures errors == old(errors) && store == old(store)
      ensures visible == old(visible) && listing == old(listing)
    {
      inputs := inputs.With(f, v);
    }

    /**
     * `validarCampo`: clears the field's error, checks the field, and shows the message
     * when it fails.
     */
    method ValidateField(f: Field) returns (ok: bool)
      modifies this
      ensures ok <==> CheckField(f, inputs.Get(f)).None?
      ensures errors == old(errors).With(f, ErrorText(CheckField(f, inputs.Get(f))))
      ensures inputs == old(inputs) && store == old(store)
      ensures visible == old(visible) && listing == old(listing)
    {
      var message := CheckField(f, inputs.Get(f));
      errors := errors.With(f, "");
      ok := true;
      if message.Some? {
        WithTwice(old(errors), f, "", message.value);
        errors := errors.With(f, message.value);
        ok := false;
      }
    }

    /**
     * `validarFormulario`: checks every field, without stopping at the first failure,
     * and raises the "form is completely empty" alert when nothing was typed.
     */
    method ValidateForm() returns (ok: bool, emptyAlert: bool)
      modifies this
      ensures ok <==> FormValid(inputs)
      ensures emptyAlert <==> AllEmpty(inputs)
      ensures errors == ErrorsFor(inputs)
      ensures inputs == old(inputs) && store == old(store)
      ensures visible == old(visible) && listing == old(listing)
    {
      var isValid := true;
      var allInputsEmpty := true;
      for i := 0 to |FormFields|
        invariant inputs == old(inputs) && store == old(store)
        invariant visible == old(visible) && listing == old(listing)
        invariant isValid <==> FirstFieldsAccepted(inputs, i)
        invariant allInputsEmpty <==> FirstFieldsEmpty(inputs, i)
        invariant errors == FirstFieldsChecked(old(errors), inputs, i)
      {
        var key := FormFields[i];
        var fieldOk := ValidateField(key);
        if !fieldOk {
          isValid := false;
        }
        if Trim(inputs.Get(key)) != "" {
          allInputsEmpty := false;
        }
      }
      AllFieldsVisited(old(errors), inputs);
      if allInputsEmpty && !isValid {
        return false, true;
      }
      return isValid, false;
    }

    /**
     * `limpiarFormulario`: when asked to report (`showAlert`), does nothing if every
     * input is empty and every error hidden; otherwise resets the inputs and hides
     * every error.
     */
    method ClearForm(showAlert: bool) returns (cleared: bool)
      modifies this
      ensures cleared <==> !showAlert || !(AllEmpty(old(inputs)) && AllHidden(old(errors)))
      ensures inputs == if cleared then Blank else old(inputs)
      ensures errors == if cleared then Blank else old(errors)
      ensures store == old(store) && visible == old(visible) && listing == old(listing)
    {
      if showAlert {
        var camposVacios := AllEmpty(inputs);
        var erroresOcultos := AllHidden(errors);
        if camposVacios && erroresOcultos {
          return false;
        }
      }
      inputs := Blank;
      for i := 0 to |FormFields|
        invariant inputs == Blank
        invariant store == old(store) && visible == old(visible) && listing == old(listing)
        invariant forall k :: 0 <= k < i ==> errors.Get(FormFields[k]) == ""
      {
        errors := errors.With(FormFields[i], "");
      }
      assert errors.nombre == errors.Get(FormFields[0]);
      assert errors.email == errors.Get(FormFields[1]);
      assert errors.edad == errors.Get(FormFields[2]);
      cleared := true;
    }

    /**
     * `toggleMostrarDatos`: a displayed listing is hidden; a hidden one is redrawn from
     * storage and displayed, unless the stored list is absent or empty.
     */
    method Toggle() returns (outcome: ToggleOutcome)
      modifies this
      ensures Synced()
      ensures old(visible) ==> outcome == Hidden && !visible && listing == old(listing)
      ensures !old(visible) ==> (visible <==> store.Some? && store.value != [])
      ensures !old(visible) && !visible ==> listing == []
      ensures !old(visible) ==> outcome == if visible then Shown else if store.None? then NoList else EmptyList
      ensures inputs == old(inputs) && errors == old(errors) && store == old(store)
    {
      if visible {
        visible := false;
        return Hidden;
      }
      listing := [];
      match store
      case Some(listaUsuarios) =>
        if |listaUsuarios| > 0 {
          listing := RenderListing(listaUsuarios);
          visible := true;
          outcome := Shown;
        } else {
          visible := false;
          outcome := EmptyList;
        }
      case None =>
        visible := false;
        outcome := NoList;
    }

    /**
     * The submit handler: when the form is valid, appends the new user to the stored
     * list (an absent list counting as empty), resets the form silently and redraws a
     * displayed listing; otherwise leaves storage alone.
     */
    method Submit() returns (outcome: SubmitOutcome)
      requires Synced()
      modifies this
      ensures Synced()
      ensures outcome == Saved <==> FormValid(old(inputs))
      ensures outcome == EmptyForm <==> AllEmpty(old(inputs))
      ensures outcome != Saved ==>
                && store == old(store) && inputs == old(inputs) && errors == ErrorsFor(old(inputs))
                && visible == old(visible) && listing == old(listing)
      ensures outcome == Saved ==>
                && ParseInt(Trim(old(inputs).edad)).Some?
                && store == Some(old(store).GetOr([]) + [NewUser(old(inputs))])
                && inputs == Blank && errors == Blank && visible == old(visible)
                && (!visible ==> listing == old(listing))
      ensures StoreWellFormed(old(store)) ==> StoreWellFormed(store)
    {
      var ok, emptyAlert := ValidateForm();
      if !ok {
        return if emptyAlert then EmptyForm else Rejected;
      }
      if AllEmpty(inputs) {
        EmptyFormInvalid(inputs);
      }
      NewUserWellFormed(inputs);
      var usuarios := store.GetOr([]);
      var nuevoUsuario := NewUser(inputs);
      usuarios := usuarios + [nuevoUsuario];
      store := Some(usuarios);
      var _ := ClearForm(false);
      if visible {
        visible := false;
        var _ := Toggle();
      } else {
        visible := false;
      }
      outcome := Saved;
    }

    /**
     * `borrarUsuarioIndividual` as written: removes the user at `index` when storage
     * holds a list and the index is in range, then calls the toggle, which hides a
     * displayed listing instead of redrawing it.
     */
    method DeleteUserAsWritten(index: int) returns (deleted: bool)
      requires Synced()
      modifies this
      ensures Synced()
      ensures deleted <==> old(store).Some? && 0 <= index < |old(store).value|
      ensures !deleted ==> store == old(store) && visible == old(visible) && listing == old(listing)
      ensures deleted ==> store == Some(RemoveAt(old(store).value, index))
      ensures deleted && old(visible) ==> !visible && listing == old(listing)
      ensures deleted && !old(visible) ==> (visible <==> store.value != [])
      ensures inputs == old(inputs) && errors == old(errors)
      ensures StoreWellFormed(old(store)) ==> StoreWellFormed(store)
    {
      if store.None? {
        return false;
      }
      var listaUsuarios := store.value;
      if 0 <= index < |listaUsuarios| {
        if StoreWellFormed(store) {
          RemoveAtWellFormed(listaUsuarios, index);
        }
        listaUsuarios := RemoveAt(listaUsuarios, index);
        store := Some(listaUsuarios);
        var _ := Toggle();
        return true;
      }
      return false;
    }

    /**
     * `borrarUsuarioIndividual` as intended: removes the user at `index` when storage
     * holds a list and the index is in range, then redraws a displayed listing from the
     * new list, the way the submit handler does.
     */
    method DeleteUser(index: int) returns (deleted: bool)
      requires Synced()
      modifies this
      ensures Synced()
      ensures deleted <==> old(store).Some? && 0 <= index < |old(store).value|
      ensures !deleted ==> store == old(store) && visible == old(visible) && listing == old(listing)
      ensures deleted ==> store == Some(RemoveAt(old(store).value, index))
      ensures deleted ==> (visible <==> old(visible) && store.value != [])
      ensures deleted && !old(visible) ==> listing == old(listing)
      ensures inputs == old(inputs) && errors == old(errors)
      ensures StoreWellFormed(old(store)) ==> StoreWellFormed(store)
    {
      if store.None? {
        return false;
      }
      var listaUsuarios := store.value;
      if 0 <= index < |listaUsuarios| {
        if StoreWellFormed(store) {
          RemoveAtWellFormed(listaUsuarios, index);
        }
        listaUsuarios := RemoveAt(listaUsuarios, index);
        store := Some(listaUsuarios);
        if visible {
          visible := false;
          var _ := Toggle();
        }
        return true;
      }
      return false;
    }

    /**
     * The "delete all" handler: with nothing stored it does nothing; otherwise, if the
     * user confirms, it removes the key and hides the listing.
     */
    method ClearAll(confirmed: bool) returns (outcome: ClearAllOutcome)
      requires Synced()
      modifies this
      ensures Synced()
      ensures outcome == NothingToDelete <==> old(store).None? || old(store).value == []
      ensures outcome == AllDeleted <==> old(store).Some? && old(store).value != [] && confirmed
      ensures outcome == AllDeleted ==> store == None && !visible
      ensures outcome != AllDeleted ==> store == old(store) && visible == old(visible)
      ensures inputs == old(inputs) && errors == old(errors) && listing == old(listing)
    {
      if store.None? || |store.value| == 0 {
        return NothingToDelete;
      }
      if confirmed {
        store := None;
        visible := false;
        return AllDeleted;
      }
      return Declined;
    }
  }
}
