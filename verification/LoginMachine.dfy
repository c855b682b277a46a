/** corefunc/login-sm.c: the handlers, which change the player in place. */
module LoginMachine {
  import opened Basics
  import opened LoginStates
  import opened LoginRuns
  import Dice
  import KeyOrder

  /** The six scores of RollAbilities. */
  method ThrowAll(random: Throws) returns (scores: seq<int>)
    ensures scores == Scores(random)
  {
    scores := [];
    var i := 0;
    while i < 6
      invariant 0 <= i <= 6 && scores == Scores(random)[..i]
    {
      var roll := Dice.Roll(4, 6, 3, random[i]);
      scores := scores + [roll];
      i := i + 1;
    }
  }

  class Player {
    const h: Hash
    var state: St
    var account: Option<Account>
    var pc: Option<PC>
    var saves: seq<Account>
    var pcSaves: seq<PC>

    ghost function Now(): Session
      reads this
    {
      Session(state, account, pc, saves, pcSaves)
    }

    /** LoginSendBanner. */
    constructor (hash: Hash)
      ensures h == hash && Now() == START
    {
      h := hash;
      state, account, pc, saves, pcSaves := St.GetEmail, None, None, [], [];
    }

    /** Any record saved is the account as it was. */
    method SaveAccount(w: World)
      requires account.Some?
      modifies this
      ensures Now() == LoginStates.SaveAccount(old(Now()), w)
      ensures saves == old(saves) + [old(account).value]
      ensures account == Some(old(account).value.(id := w.accountId))
    {
      saves := saves + [account.value];
      if account.value.id != w.accountId {
        account := Some(account.value.(id := w.accountId));
      }
    }

    method SavePc(w: World)
      modifies this
      ensures Now() == LoginStates.SavePc(old(Now()), w)
      ensures KeepsBudgets(old(Now()), w, Now())
      ensures if pc.None? || old(pc).value.accountId == 0 then pc == old(pc) && pcSaves == old(pcSaves)
              else pcSaves == old(pcSaves) + [old(pc).value] && pc == Some(old(pc).value.(id := w.pcId))
    {
      if pc.None? || pc.value.accountId == 0 {
        return;
      }
      pcSaves := pcSaves + [pc.value];
      if pc.value.id != w.pcId {
        pc := Some(pc.value.(id := w.pcId));
      }
    }

    /** An account that had no code is saved, with a code and unconfirmed; any other is left alone.
        Address and password stay. */
    method CreateSendConfirmEmail(w: World)
      requires account.Some?
      modifies this
      ensures Now() == SendCode(old(Now()), w)
      ensures account.Some? && account.value.email == old(account.value.email)
      ensures account.value.pwd == old(account.value.pwd)
      ensures account.value.confirmed <==> old(account.value.confirmed && account.value.confcode != "")
      ensures saves == if old(account.value.confcode) != "" then old(saves)
                       else old(saves) + [old(account.value).(confcode := w.code, confirmed := false)]
    {
      if account.value.confcode == "" {
        account := Some(account.value.(confcode := w.code, confirmed := false));
        SaveAccount(w);
      }
    }

    /** A roll is spent while there is one, and rolls made and left stay what was granted. */
    method RollAbilities(w: World)
      modifies this
      ensures Now() == LoginStates.RollAbilities(old(Now()), w)
      ensures old(pc).Some? && Budgeted(old(pc).value) ==> pc.Some? && Budgeted(pc.value)
      ensures old(pc).Some? && old(pc).value.rerolls != 0 ==>
                pc.Some? && pc.value.scores == Scores(w.random) && pc.value.rerolls == old(pc).value.rerolls - 1
    {
      if pc.Some? && Budgeted(pc.value) {
        RolledIsBudgeted(pc.value, w);
      }
      var rerolls := if pc.Some? then pc.value.rerolls else 0;
      if rerolls == 0 {
        return;
      }
      rerolls := rerolls - 1;
      pc := Some(pc.value.(rerolls := rerolls, made := pc.value.made + 1));
      var scores := ThrowAll(w.random);
      pc := Some(pc.value.(scores := scores));
    }

    /** The enter handler of RerollAbilities leads back to the menu. */
    method Reroll(w: World)
      modifies this
      ensures Now() == Enter(LoginStates.SavePc(LoginStates.RollAbilities(old(Now()), w), w), ShowCreationMenu, w)
      decreases true, 0
    {
      RollAbilities(w);
      SavePc(w);
      EnterState(ShowCreationMenu, w);
    }

    /** The state is entered whatever its enter handler did on the way; only the mailing of a code
        touches the account, and only rerolling the character, within its budget. */
    method EnterState(newState: St, w: World)
      requires newState.ResendConfirmEmail? ==> account.Some?
      modifies this
      ensures Now() == Enter(old(Now()), newState, w)
      ensures state == newState
      ensures !newState.ResendConfirmEmail? ==> account == old(account) && saves == old(saves)
      ensures !newState.RerollAbilities? ==> pc == old(pc) && pcSaves == old(pcSaves)
      ensures KeepsBudgets(old(Now()), w, Now())
      decreases newState.RerollAbilities?, 1
    {
      EnterKeeps(Now(), newState, w);
      match newState {
        case ResendConfirmEmail =>
          CreateSendConfirmEmail(w);
        case RerollAbilities =>
          Reroll(w);
        case _ =>
      }
      state := newState;
    }

    // ---- the handlers ----

    /** What every handler is called with. */
    ghost predicate Called(st: St, arg: Option<string>)
      reads this
    {
      Good(Now()) && state == st && (arg.Some? ==> arg.value != "")
    }

    /** What every handler does: its line of the table, and what all of them keep to. */
    twostate predicate Handled(arg: Option<string>, w: World, next: St)
      requires old(Good(Now())) && (arg.Some? ==> arg.value != "")
      reads this
    {
      && Outcome(Now(), next) == Handle(h, old(Now()), arg, w)
      && Lawful(h, old(Now()), arg, w, Outcome(Now(), next))
    }

    method GetEmail(arg: Option<string>, w: World) returns (next: St)
      requires Called(St.GetEmail, arg)
      modifies this
      ensures Handled(arg, w, next)
      ensures next.GetPassword? <==> arg.Some? && w.email.Some? && !w.banned && w.stored.Some?
      ensures next.GetPassword? ==> account == w.stored
      ensures next.ConfirmEmail? <==> arg.Some? && w.email.Some? && !w.banned && w.stored.None? && !w.wizLocked
      ensures next.ConfirmEmail? ==> account.Some? && account.value.email == w.email.value && account.value.id == 0
      ensures next.ConfirmEmail? ==> account.value.pwd.None? && account.value.newpwd.None?
      ensures next.ConfirmEmail? ==> account.value.confcode == "" && !account.value.confirmed && !account.value.ansi
      ensures next.NoChange? <==> arg.Some? && w.email.None?
      ensures next.NoChange? ==> account == old(account)
      ensures next.GetPassword? || next.ConfirmEmail? || next.NoChange? || next.Disconnect?
      ensures saves == old(saves)
    {
      HandleLawful(h, Now(), arg, w);
      if arg.None? {
        if account.Some? {
          account := Some(account.value.(email := ""));
        }
        return Disconnect;
      }
      if w.email.None? {
        return NoChange;
      }
      if w.banned {
        return Disconnect;
      }
      account := w.stored;
      if account.Some? {
        return St.GetPassword;
      }
      if w.wizLocked {
        return Disconnect;
      }
      account := Some(Account(0, w.email.value, None, None, "", false, false));
      return St.ConfirmEmail;
    }

    method ConfirmEmail(arg: Option<string>, w: World) returns (next: St)
      requires Called(St.ConfirmEmail, arg)
      modifies this
      ensures Handled(arg, w, next) && Now() == old(Now())
      ensures next == if Starts(arg, "yY") then St.GetNewUserPassword else if Starts(arg, "nN") then St.GetEmail
                      else NoChange
    {
      HandleLawful(h, Now(), arg, w);
      if arg.None? {
        return NoChange;
      }
      match First(arg.value) {
        case 'y' => return St.GetNewUserPassword;
        case 'n' => return St.GetEmail;
        case _ => return NoChange;
      }
    }

    method GetNewUserPassword(arg: Option<string>, w: World) returns (next: St)
      requires Called(St.GetNewUserPassword, arg)
      modifies this
      ensures Handled(arg, w, next)
      ensures next == if arg.Some? && |arg.value| <= 10 then St.ConfirmPassword else St.GetNewUserPassword
      ensures next.ConfirmPassword? ==>
                account == Some(old(account).value.(pwd := Some(h(old(account).value.email, arg.value))))
      ensures saves == old(saves) && (!next.ConfirmPassword? ==> account == old(account))
    {
      HandleLawful(h, Now(), arg, w);
      if arg.None? || |arg.value| > 10 {
        return St.GetNewUserPassword;
      }
      account := Some(account.value.(pwd := Some(h(account.value.email, arg.value))));
      return St.ConfirmPassword;
    }

    method ConfirmPassword(arg: Option<string>, w: World) returns (next: St)
      requires Called(St.ConfirmPassword, arg)
      modifies this
      ensures Handled(arg, w, next)
      ensures Now() == old(Now()) && (Behind(next) <==> Passes(h, Now(), arg))
      ensures next == if arg.Some? && account.value.pwd.Some?
                         && Alike(h(account.value.email, arg.value), account.value.pwd.value, 32)
                      then St.ChooseAnsi else St.GetNewUserPassword
    {
      HandleLawful(h, Now(), arg, w);
      if arg.Some? && account.value.pwd.Some? {
        Same32Means(h(account.value.email, arg.value), account.value.pwd.value);
      }
      if arg.None? || account.value.pwd.None? {
        return St.GetNewUserPassword;
      }
      var temppasswd := h(account.value.email, arg.value);
      if !Same32(temppasswd, account.value.pwd.value) {
        return St.GetNewUserPassword;
      }
      return St.ChooseAnsi;
    }

    method GetPassword(arg: Option<string>, w: World) returns (next: St)
      requires Called(St.GetPassword, arg)
      modifies this
      ensures Handled(arg, w, next)
      ensures Now() == old(Now()) && (Behind(next) <==> Passes(h, Now(), arg))
      ensures next == if arg.Some? && account.value.pwd.Some?
                         && Alike(h(account.value.email, arg.value), account.value.pwd.value, 32)
                      then ShowAccountMenu else Disconnect
    {
      HandleLawful(h, Now(), arg, w);
      if arg.Some? && account.value.pwd.Some? {
        Same32Means(h(account.value.email, arg.value), account.value.pwd.value);
      }
      if arg.None? || account.value.pwd.None? {
        return Disconnect;
      }
      var temppasswd := h(account.value.email, arg.value);
      if !Same32(temppasswd, account.value.pwd.value) {
        return Disconnect;
      }
      return ShowAccountMenu;
    }

    method ChooseAnsi(arg: Option<string>, w: World) returns (next: St)
      requires Called(St.ChooseAnsi, arg)
      modifies this
      ensures Handled(arg, w, next)
      ensures account.Some? && account.value.pwd == old(account.value.pwd)
      ensures account.value.confirmed <==> old(account.value.confirmed) && !Unconfirms(old(Now()), arg)
      ensures next == if Starts(arg, "yYnN") then ShowAccountMenu else NoChange
      ensures next.NoChange? ==> Now() == old(Now())
      ensures Starts(arg, "yYnN") ==>
        var a := old(account).value.(ansi := Starts(arg, "yY")); var b := a.(id := w.accountId);
        var c := b.(confcode := w.code, confirmed := false);
        if a.confcode != "" then account == Some(b) && saves == old(saves) + [a]
        else account == Some(c.(id := w.accountId)) && saves == old(saves) + [a, c]
    {
      HandleLawful(h, Now(), arg, w);
      AnsiUnconfirms(Now(), arg, w);
      AnsiOutcome(Now(), arg, w);
      if arg.None? {
        return NoChange;
      }
      match First(arg.value) {
        case 'y' => account := Some(account.value.(ansi := true));
        case 'n' => account := Some(account.value.(ansi := false));
        case _ => return NoChange;
      }
      SaveAccount(w);
      if account.value.confcode == "" {
        EnterState(ResendConfirmEmail, w);
      }
      return ShowAccountMenu;
    }

    method ShowMenu(arg: Option<string>, w: World) returns (next: St)
      requires Called(St.ShowAccountMenu, arg)
      modifies this
      ensures Handled(arg, w, next)
      ensures NeedsConfirmed(next) ==> old(account.value.confirmed)
      ensures var confirmed := old(account.value.confirmed);
        && (next.ChooseAnsi? <==> Starts(arg, "1")) && (next.GetNewPassword? <==> Starts(arg, "2"))
        && (next.ShowMotd? <==> Starts(arg, "3")) && (next.ShowCredits? <==> Starts(arg, "4"))
        && (next.ShowPlayerList? <==> Starts(arg, "5") && confirmed)
        && (next.ShowCreationMenu? <==> Starts(arg, "6") && confirmed)
        && (next.Playing? <==> Starts(arg, "7") && confirmed)
        && (next.EnterConfirmCode? <==> Starts(arg, "eE") && !confirmed)
        && (next.Disconnect? <==> Starts(arg, "qQ"))
      ensures next in {St.ChooseAnsi, St.GetNewPassword, ShowMotd, ShowCredits, ShowPlayerList, St.ShowCreationMenu,
                       Playing, St.EnterConfirmCode, Disconnect, ShowAccountMenu}
      ensures var a := old(account).value;
        var coded := a.(confcode := w.code);
        if Starts(arg, "rR") && !a.confirmed && a.confcode == ""
        then account == Some(coded.(id := w.accountId)) && saves == old(saves) + [coded]
        else account == old(account) && saves == old(saves)
      ensures account.Some? && account.value.confirmed == old(account.value.confirmed)
      ensures account.value.pwd == old(account.value.pwd) && pc == old(pc)
    {
      HandleLawful(h, Now(), arg, w);
      next := ShowAccountMenu;
      if arg.None? {
        return;
      }
      match First(arg.value) {
        case '1' => return St.ChooseAnsi;
        case '2' => return St.GetNewPassword;
        case '3' => return ShowMotd;
        case '4' => return ShowCredits;
        case '5' => if account.value.confirmed { return ShowPlayerList; }
        case '6' => if account.value.confirmed { return St.ShowCreationMenu; }
        case '7' => if account.value.confirmed { return Playing; }
        case 'e' => if !account.value.confirmed { return St.EnterConfirmCode; }
        case 'r' => if !account.value.confirmed { EnterState(ResendConfirmEmail, w); }
        case 'q' => return Disconnect;
        case _ =>
      }
    }

    method GetNewPassword(arg: Option<string>, w: World) returns (next: St)
      requires Called(St.GetNewPassword, arg)
      modifies this
      ensures Handled(arg, w, next)
      ensures next == if arg.Some? && |arg.value| <= 10 then St.ConfirmNewPassword else St.GetNewPassword
      ensures account == if next.GetNewPassword? then old(account)
                         else Some(old(account).value.(newpwd := Some(h(old(account).value.email, arg.value))))
      ensures saves == old(saves)
    {
      HandleLawful(h, Now(), arg, w);
      if arg.None? || |arg.value| > 10 {
        return St.GetNewPassword;
      }
      account := Some(account.value.(newpwd := Some(h(account.value.email, arg.value))));
      return St.ConfirmNewPassword;
    }

    method ConfirmNewPassword(arg: Option<string>, w: World) returns (next: St)
      requires Called(St.ConfirmNewPassword, arg)
      modifies this
      ensures Handled(arg, w, next)
      ensures next == ShowAccountMenu
      ensures var a := old(account).value;
        var changed := a.(pwd := a.newpwd, newpwd := None);
        if arg.Some? && a.newpwd.Some? && Alike(h(a.email, arg.value), a.newpwd.value, 32)
        then account == Some(changed.(id := w.accountId)) && saves == old(saves) + [changed]
        else Now() == old(Now())
    {
      HandleLawful(h, Now(), arg, w);
      if arg.Some? && account.value.newpwd.Some? {
        Same32Means(h(account.value.email, arg.value), account.value.newpwd.value);
      }
      if arg.None? || account.value.newpwd.None? {
        return ShowAccountMenu;
      }
      var temppasswd := h(account.value.email, arg.value);
      if !Same32(temppasswd, account.value.newpwd.value) {
        return ShowAccountMenu;
      }
      account := Some(account.value.(pwd := account.value.newpwd));
      account := Some(account.value.(newpwd := None));
      SaveAccount(w);
      return ShowAccountMenu;
    }

    method EnterConfirmCode(arg: Option<string>, w: World) returns (next: St)
      requires Called(St.EnterConfirmCode, arg)
      modifies this
      ensures Handled(arg, w, next)
      ensures account.Some? && (account.value.confirmed <==> GivesCode(old(Now()), arg))
      ensures next == ShowAccountMenu
      ensures var a := old(account).value;
        if arg.None? then Now() == old(Now())
        else
          var right := a.confcode != "" && KeyOrder.Folded(arg.value) == KeyOrder.Folded(a.confcode);
          var told := a.(confirmed := right, confcode := if right then "" else a.confcode);
          account == Some(told.(id := w.accountId)) && saves == old(saves) + [told]
    {
      HandleLawful(h, Now(), arg, w);
      if arg.Some? {
        KeyOrder.TextEqualUpToCase(arg.value, account.value.confcode);
      }
      if arg.None? {
        return ShowAccountMenu;
      }
      if CodeMatches(account.value, arg) {
        account := Some(account.value.(confirmed := true));
        account := Some(account.value.(confcode := ""));
        SaveAccount(w);
      } else {
        account := Some(account.value.(confirmed := false));
        SaveAccount(w);
      }
      return ShowAccountMenu;
    }

    method ChooseFromMenu(arg: Option<string>, w: World) returns (next: St)
      requires Called(St.ShowCreationMenu, arg)
      modifies this
      ensures Handled(arg, w, next)
      ensures Now() == old(Now()) && (Creating(next) || next.ShowAccountMenu? || next.NoChange?)
      ensures (next.ChooseName? <==> Starts(arg, "1")) && (next.ChooseSex? <==> Starts(arg, "2"))
      ensures (next.ChooseRace? <==> Starts(arg, "3")) && (next.ChooseClass? <==> Starts(arg, "4"))
      ensures (next.ChooseStats? <==> Starts(arg, "5") && w.hasClass) && (next.ChooseAlignment? <==> Starts(arg, "6"))
      ensures (next.RerollAbilities? <==> Starts(arg, "rR")) && (next.NoChange? <==> Starts(arg, "5") && !w.hasClass)
      ensures next.ShowAccountMenu? <==> Starts(arg, "dD") && w.hasSex && w.hasAlignment && w.hasCon
    {
      HandleLawful(h, Now(), arg, w);
      if arg.None? {
        return St.ShowCreationMenu;
      }
      match First(arg.value) {
        case '1' => return St.ChooseName;
        case 'r' => return RerollAbilities;
        case '2' => return St.ChooseSex;
        case '3' => return ChooseRace;
        case '4' => return ChooseClass;
        case '5' =>
          if w.hasClass {
            return ChooseStats;
          }
          return NoChange;
        case '6' => return ChooseAlignment;
        case 'd' =>
          if !w.hasSex || !w.hasAlignment || !w.hasCon {
            return St.ShowCreationMenu;
          }
          return ShowAccountMenu;
        case _ => return St.ShowCreationMenu;
      }
    }

    method ChooseName(arg: Option<string>, w: World) returns (next: St)
      requires Called(St.ChooseName, arg)
      modifies this
      ensures Handled(arg, w, next)
      ensures account == old(account) && saves == old(saves)
      ensures next == if arg.Some? && w.found.Some? && w.found.value.accountId != account.value.id then St.ChooseName
                      else if arg.Some? && w.found.Some? && w.loaded.Some? && w.loaded.value.complete
                      then ShowAccountMenu else St.ShowCreationMenu
      ensures arg.None? || next.ChooseName? ==> Now() == old(Now())
      ensures arg.Some? && w.found.Some? && !next.ChooseName? ==>
                pcSaves == old(pcSaves) && pc == if next.ShowAccountMenu? then None else w.loaded
      ensures arg.Some? && w.found.None? && old(pc).Some? ==>
                pc.Some? && pc.value == old(pc).value.(name := arg.value, id := pc.value.id)
      ensures arg.Some? && w.found.None? && old(pc).None? ==>
                && pc.Some? && pc.value.name == arg.value && Budgeted(pc.value) && !pc.value.complete
                && pc.value.accountId == account.value.id
                && pc.value.granted == if w.maxReroll.Some? then w.maxReroll.value + 1 else 1
      ensures arg.Some? && w.found.None? && pc.Some? && pc.value.accountId != 0 ==>
                pc.value.id == w.pcId && |pcSaves| == |old(pcSaves)| + 1
                && exists id :: pcSaves[|old(pcSaves)|] == pc.value.(id := id)
    {
      HandleLawful(h, Now(), arg, w);
      if arg.None? {
        return St.ShowCreationMenu;
      }
      if w.found.Some? {
        if w.found.value.accountId != account.value.id {
          return St.ChooseName;
        }
        pc := w.loaded;
        if pc.Some? && pc.value.complete {
          pc := None;
          return ShowAccountMenu;
        }
        return St.ShowCreationMenu;
      }
      if pc.Some? {
        pc := Some(pc.value.(name := arg.value));
      } else {
        pc := Some(PC(0, account.value.id, arg.value, false, 0, Granted(w), [], 0, Granted(w)));
        RollAbilities(w);
      }
      SavePc(w);
      return St.ShowCreationMenu;
    }

    method ChooseSex(arg: Option<string>, w: World) returns (next: St)
      requires Called(St.ChooseSex, arg)
      modifies this
      ensures Handled(arg, w, next)
      ensures account == old(account) && saves == old(saves)
      ensures pc.Some? <==> old(pc).Some?
      ensures next == if Starts(arg, "mMfFnN") then St.ShowCreationMenu else St.ChooseSex
      ensures pc.Some? ==>
        var sex := if Starts(arg, "mM") then 1 else if Starts(arg, "fF") then 2 else if Starts(arg, "nN") then 0
                   else old(pc).value.sex;
        pc.value == old(pc).value.(sex := sex, id := pc.value.id)
    {
      HandleLawful(h, Now(), arg, w);
      if arg.None? {
        return St.ChooseSex;
      }
      var sex;
      match First(arg.value) {
        case 'm' => sex := MALE;
        case 'f' => sex := FEMALE;
        case 'n' => sex := NEUTRAL;
        case _ => return St.ChooseSex;
      }
      if pc.Some? {
        pc := Some(pc.value.(sex := sex));
      }
      SavePc(w);
      return St.ShowCreationMenu;
    }

    /** The table of handlers, as far as sessions get; the others have no states to say. */
    method Dispatch(arg: Option<string>, w: World) returns (next: St)
      requires Good(Now()) && (arg.Some? ==> arg.value != "")
      modifies this
      ensures Handled(arg, w, next)
      ensures old(state).Initial? ==> next == St.GetEmail && Now() == old(Now())
      ensures old(state) in {ShowMotd, ShowCredits, ShowPlayerList} ==> next == ShowAccountMenu && Now() == old(Now())
      ensures old(state) in {ChooseRace, ChooseClass, ChooseStats, ChooseAlignment} ==>
                next == St.ShowCreationMenu && Now() == old(Now())
      ensures old(state) in {Disconnect, Playing} ==> next == Disconnect && Now() == old(Now())
    {
      HandleLawful(h, Now(), arg, w);
      match state
      case Initial => next := St.GetEmail;
      case GetEmail => next := GetEmail(arg, w);
      case ConfirmEmail => next := ConfirmEmail(arg, w);
      case GetNewUserPassword => next := GetNewUserPassword(arg, w);
      case ConfirmPassword => next := ConfirmPassword(arg, w);
      case GetPassword => next := GetPassword(arg, w);
      case ChooseAnsi => next := ChooseAnsi(arg, w);
      case ShowMotd => next := ShowAccountMenu;
      case ShowCredits => next := ShowAccountMenu;
      case ShowAccountMenu => next := ShowMenu(arg, w);
      case ShowPlayerList => next := ShowAccountMenu;
      case GetNewPassword => next := GetNewPassword(arg, w);
      case ConfirmNewPassword => next := ConfirmNewPassword(arg, w);
      case EnterConfirmCode => next := EnterConfirmCode(arg, w);
      case ShowCreationMenu => next := ChooseFromMenu(arg, w);
      case ChooseName => next := ChooseName(arg, w);
      case ChooseSex => next := ChooseSex(arg, w);
      case ChooseRace => next := St.ShowCreationMenu;
      case ChooseClass => next := St.ShowCreationMenu;
      case ChooseStats => next := St.ShowCreationMenu;
      case ChooseAlignment => next := St.ShowCreationMenu;
      case RerollAbilities => next := St.ShowCreationMenu;
      case _ => next := Disconnect;
    }

    /** LoginStateMachine. */
    method HandleLine(line: string, w: World)
      requires Good(Now())
      modifies this
      ensures StepsTo(h, old(Now()), Input(line, w), Now()) && Good(Now())
      ensures Advances(h, old(Now()), SkipSpaces(line), w, Now())
      ensures KeepsBudgets(old(Now()), w, Now())
    {
      var arg := Skip(line);
      StepAdvances(h, Now(), arg, w);
      StepBudgets(h, Now(), arg, w);
      var newState := Dispatch(arg, w);
      if newState != NoChange {
        EnterState(newState, w);
      }
    }

    /** skip_spaces. */
    method Skip(line: string) returns (arg: Option<string>)
      ensures arg == SkipSpaces(line)
    {
      var i := 0;
      while i < |line| && Space(line[i])
        invariant 0 <= i <= |line| && SkipSpaces(line[i..]) == SkipSpaces(line)
      {
        i := i + 1;
      }
      if i == |line| {
        return None;
      }
      return Some(line[i..]);
    }
  }

  /** A connection from the banner on: the sessions between its lines are a run. */
  method Serve(h: Hash, ins: seq<Input>) returns (ss: seq<Session>)
    ensures IsRun(h, ins, ss)
  {
    var player := new Player(h);
    ss := [START];
    var i := 0;
    while i < |ins|
      invariant 0 <= i <= |ins| && IsRun(h, ins[..i], ss)
      invariant player.h == h && Good(player.Now()) && player.Now() == ss[i] && fresh(player)
    {
      player.HandleLine(ins[i].line, ins[i].world);
      RunGrows(h, ins[..i], ss, ins[i], player.Now());
      assert ins[..i] + [ins[i]] == ins[..i + 1];
      ss := ss + [Session(player.state, player.account, player.pc, player.saves, player.pcSaves)];
      i := i + 1;
    }
    assert ins[..i] == ins;
  }
}
