/** The login screen (components/Login.tsx): choosing the administrator or a unit opens the
  * password dialog, and submitting it logs in or reports why not. */
module Login {
  import opened Types
  import opened Storage

  /** Whom the password dialog is for. */
  datatype Target = AdminTarget | UnitTarget(id: string, name: string)

  datatype LoginError = WrongPassword | UnitNotFound

  /** What a submission leads to: nothing, a login with this user, or an error message. */
  datatype Outcome = NoAction | LoggedIn(user: User) | Failed(error: LoginError)

  const ADMIN_USERNAME: string := "J1Admin"

  /** The decision of the dialog for the typed password. */
  function Decide(target: Option<Target>, input: string, units: seq<Unit>): (o: Outcome)
    ensures o == NoAction <==> target.None? || (target.value.UnitTarget? && target.value.id == "")
    ensures o == Failed(UnitNotFound) <==>
              target.Some? && target.value.UnitTarget? && target.value.id != ""
              && FindUnit(units, target.value.id).None?
    ensures o.LoggedIn? && o.user.role == AdminRole ==> target == Some(AdminTarget) && input == ADMIN_PASSWORD
  {
    match target
    case None => NoAction
    case Some(AdminTarget) =>
      if input == ADMIN_PASSWORD then LoggedIn(User(ADMIN_USERNAME, AdminRole, None))
      else Failed(WrongPassword)
    case Some(UnitTarget(id, _)) =>
      if id == "" then NoAction
      else
        match FindUnit(units, id)
        case None => Failed(UnitNotFound)
        case Some(unit) =>
          if input == PasswordOf(unit) then LoggedIn(User(unit.username, UserRole, Some(unit.id)))
          else Failed(WrongPassword)
  }

  /** Nobody logs in without the right password: an administrator only with `"admin"`, and a
    * unit user only as a unit whose password (default `"123"`) was typed, with that unit's
    * username and id. */
  lemma LoginNeedsPassword(target: Option<Target>, input: string, units: seq<Unit>)
    ensures Decide(target, input, units).LoggedIn? ==>
              var u := Decide(target, input, units).user;
              (target == Some(AdminTarget) && input == ADMIN_PASSWORD
               && u == User(ADMIN_USERNAME, AdminRole, None))
              || (target.Some? && target.value.UnitTarget? && u.role == UserRole && u.unitId.Some?
                  && FindUnit(units, u.unitId.value).Some?
                  && input == PasswordOf(FindUnit(units, u.unitId.value).value)
                  && u.username == FindUnit(units, u.unitId.value).value.username
                  && u.unitId.value == target.value.id)
  {
  }

  /** The right password always gets in: for the administrator, and for every unit that the
    * dialog can find; a unit that cannot be found gives the "not found" error whatever is typed. */
  lemma CorrectPasswordLogsIn(input: string, units: seq<Unit>, id: string, name: string)
    ensures Decide(Some(AdminTarget), input, units).LoggedIn? <==> input == ADMIN_PASSWORD
    ensures id != "" && FindUnit(units, id).Some? ==>
              (Decide(Some(UnitTarget(id, name)), input, units).LoggedIn? <==> input == PasswordOf(FindUnit(units, id).value))
    ensures id != "" && FindUnit(units, id).None? ==>
              Decide(Some(UnitTarget(id, name)), input, units) == Failed(UnitNotFound)
    ensures id == "" ==> Decide(Some(UnitTarget(id, name)), input, units) == NoAction
  {
  }

  /** A unit stored without a password accepts `"123"` and nothing else. */
  lemma DefaultPassword(unit: Unit, units: seq<Unit>, input: string)
    requires unit.password == "" && unit.id != "" && FindUnit(units, unit.id) == Some(unit)
    ensures Decide(Some(UnitTarget(unit.id, unit.shortName)), input, units).LoggedIn? <==> input == DEFAULT_UNIT_PASSWORD
  {
  }

  /** Looking a unit up among the delivered units finds the delivered copy of the same unit. */
  lemma {:induction false} FindDeliveredUnit(us: seq<Unit>, id: string)
    ensures FindUnit(DeliveredUnits(us), id).None? <==> FindUnit(us, id).None?
    ensures FindUnit(us, id).Some? ==>
              FindUnit(DeliveredUnits(us), id) == Some(FindUnit(us, id).value.(password := PasswordOf(FindUnit(us, id).value)))
    decreases |us|
  {
    if us != [] {
      var d := DeliveredUnits(us);
      assert d[0] == us[0].(password := PasswordOf(us[0]));
      if us[0].id != id {
        assert d[1..] == DeliveredUnits(us[1..]);
        FindDeliveredUnit(us[1..], id);
      }
    }
  }

  /** The unit branch of `Decide` on the delivered units: the same unit is found, with the
    * same username and the same expected password. */
  lemma DecideUnitOnDelivered(id: string, name: string, input: string, us: seq<Unit>)
    requires id != ""
    ensures Decide(Some(UnitTarget(id, name)), input, DeliveredUnits(us))
            == Decide(Some(UnitTarget(id, name)), input, us)
  {
    var t := Some(UnitTarget(id, name));
    FindDeliveredUnit(us, id);
    var found := FindUnit(us, id);
    var seen := FindUnit(DeliveredUnits(us), id);
    if found.Some? {
      var u := found.value;
      var v := u.(password := PasswordOf(u));
      assert seen == Some(v);
      assert Decide(t, input, us) == if input == PasswordOf(u) then LoggedIn(User(u.username, UserRole, Some(u.id))) else Failed(WrongPassword);
      assert Decide(t, input, DeliveredUnits(us)) == if input == PasswordOf(v) then LoggedIn(User(v.username, UserRole, Some(v.id))) else Failed(WrongPassword);
    } else {
      assert seen.None?;
    }
  }

  /** The login decides the same whether it is given the stored units or the units as
    * subscribers receive them, with their default passwords filled in. */
  lemma DecideOnDeliveredUnits(target: Option<Target>, input: string, us: seq<Unit>)
    ensures Decide(target, input, DeliveredUnits(us)) == Decide(target, input, us)
  {
    match target
    case None =>
    case Some(AdminTarget) =>
    case Some(UnitTarget(id, name)) =>
      if id != "" {
        DecideUnitOnDelivered(id, name, input, us);
      }
  }

  class LoginScreen {
    var showPasswordModal: bool
    var selectedTarget: Option<Target>
    var passwordInput: string
    var error: Option<LoginError>

    constructor ()
      ensures !showPasswordModal && selectedTarget.None? && passwordInput == "" && error.None?
    {
      showPasswordModal := false;
      selectedTarget := None;
      passwordInput := "";
      error := None;
    }

    /** Open the dialog for a unit, with an empty password and no error. */
    method UnitClick(unit: Unit)
      modifies this
      ensures selectedTarget == Some(UnitTarget(unit.id, unit.shortName))
      ensures passwordInput == "" && error.None? && showPasswordModal
    {
      selectedTarget := Some(UnitTarget(unit.id, unit.shortName));
      passwordInput := "";
      error := None;
      showPasswordModal := true;
    }

    /** Open the dialog for the administrator, with an empty password and no error. */
    method AdminClick()
      modifies this
      ensures selectedTarget == Some(AdminTarget)
      ensures passwordInput == "" && error.None? && showPasswordModal
    {
      selectedTarget := Some(AdminTarget);
      passwordInput := "";
      error := None;
      showPasswordModal := true;
    }

    /** Close the dialog and forget its target. */
    method CloseModal()
      modifies this
      ensures !showPasswordModal && selectedTarget.None?
      ensures passwordInput == old(passwordInput) && error == old(error)
    {
      showPasswordModal := false;
      selectedTarget := None;
    }

    /** Submit the dialog: the user to log in, if any; a failure sets the error message and
      * everything else stays as it is. */
    method Submit(units: seq<Unit>) returns (login: Option<User>)
      modifies this
      ensures var o := Decide(old(selectedTarget), old(passwordInput), units);
              (o.LoggedIn? ==> login == Some(o.user) && error == old(error))
              && (o.Failed? ==> login.None? && error == Some(o.error))
              && (o.NoAction? ==> login.None? && error == old(error))
      ensures selectedTarget == old(selectedTarget) && passwordInput == old(passwordInput)
      ensures showPasswordModal == old(showPasswordModal)
    {
      var outcome := Decide(selectedTarget, passwordInput, units);
      match outcome
      case NoAction => login := None;
      case LoggedIn(user) => login := Some(user);
      case Failed(e) => login := None; error := Some(e);
    }
  }
}
