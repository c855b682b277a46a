/** What holds in every run of corefunc/login-sm.c. */
module LoginRuns {
  import opened Basics
  import opened LoginStates
  import Dice

  datatype Input = Input(line: string, world: World)

  /** The session when the banner has been sent. */
  const START := Session(GetEmail, None, None, [], [])

  /** States that no run is ever in. */
  predicate Never(st: St) {
    || st.Initial? || st.ShowWmotd? || st.PressEnter? || st.ResendConfirmEmail? || st.ShowLoginMenu?
    || st.WaitForAuth? || st.EditExtraDescr? || st.DeleteUser? || st.NoChange?
  }

  predicate Creating(st: St) {
    || st.ShowCreationMenu? || st.ChooseName? || st.ChooseSex? || st.ChooseRace? || st.ChooseClass?
    || st.ChooseStats? || st.ChooseAlignment? || st.RerollAbilities?
  }

  /** The account menu and the states behind it. */
  predicate Behind(st: St) {
    || Creating(st) || st.ChooseAnsi? || st.ShowMotd? || st.ShowCredits? || st.ShowAccountMenu?
    || st.ShowPlayerList? || st.GetNewPassword? || st.ConfirmNewPassword? || st.EnterConfirmCode? || st.Playing?
  }

  /** The states for confirmed accounts only. */
  predicate NeedsConfirmed(st: St) {
    Creating(st) || st.ShowPlayerList? || st.Playing?
  }

  /** The states of a new account. */
  predicate Registering(st: St) {
    st.ConfirmEmail? || st.GetNewUserPassword? || st.ConfirmPassword?
  }

  predicate Good(s: Session) {
    && Ready(s) && !Never(s.state)
    && (NeedsConfirmed(s.state) ==> s.account.value.confirmed)
    && (Registering(s.state) || s.state.EnterConfirmCode? ==> !s.account.value.confirmed)
  }

  /** A step ends behind the password only from there, with the same account, or by a password. */
  predicate Passes(h: Hash, s: Session, arg: Option<string>) {
    && (s.state.GetPassword? || s.state.ConfirmPassword?) && s.account.Some?
    && Matches(h, s.account.value.email, arg, s.account.value.pwd)
  }

  /** What every handler keeps to. */
  predicate Keeps(h: Hash, s: Session, arg: Option<string>, o: Outcome) {
    && (o.next.NoChange? ==> o.s == s)
    && (o.next.NoChange? || !Never(o.next))
    && (NeedsAccount(o.next) && !o.next.NoChange? ==> o.s.account.Some?)
    && (NeedsConfirmed(o.next) ==> o.s.account.value.confirmed)
    && (Registering(o.next) || o.next.EnterConfirmCode? ==> !o.s.account.value.confirmed)
    && (Behind(o.next) ==>
          && s.account.Some? && o.s.account.value.email == s.account.value.email
          && (Behind(s.state) || Passes(h, s, arg)))
  }

  lemma GetEmailKeeps(h: Hash, s: Session, arg: Option<string>, w: World)
    requires Good(s) && s.state.GetEmail? && (arg.Some? ==> arg.value != "")
    ensures Keeps(h, s, arg, DoGetEmail(s, arg, w))
  {
  }

  lemma ChooseAnsiKeeps(h: Hash, s: Session, arg: Option<string>, w: World)
    requires Good(s) && s.state.ChooseAnsi? && (arg.Some? ==> arg.value != "")
    ensures Keeps(h, s, arg, DoChooseAnsi(s, arg, w))
  {
  }

  lemma ShowAccountMenuKeeps(h: Hash, s: Session, arg: Option<string>, w: World)
    requires Good(s) && s.state.ShowAccountMenu? && (arg.Some? ==> arg.value != "")
    ensures Keeps(h, s, arg, DoShowAccountMenu(s, arg, w))
  {
  }

  lemma EnterConfirmCodeKeeps(h: Hash, s: Session, arg: Option<string>, w: World)
    requires Good(s) && s.state.EnterConfirmCode? && (arg.Some? ==> arg.value != "")
    ensures Keeps(h, s, arg, DoEnterConfirmCode(s, arg, w))
  {
  }

  lemma ShowCreationMenuKeeps(h: Hash, s: Session, arg: Option<string>, w: World)
    requires Good(s) && s.state.ShowCreationMenu? && (arg.Some? ==> arg.value != "")
    ensures Keeps(h, s, arg, DoShowCreationMenu(s, arg, w))
  {
  }

  lemma ChooseNameKeeps(h: Hash, s: Session, arg: Option<string>, w: World)
    requires Good(s) && s.state.ChooseName? && (arg.Some? ==> arg.value != "")
    ensures Keeps(h, s, arg, DoChooseName(s, arg, w))
  {
  }

  lemma ChooseSexKeeps(h: Hash, s: Session, arg: Option<string>, w: World)
    requires Good(s) && s.state.ChooseSex? && (arg.Some? ==> arg.value != "")
    ensures Keeps(h, s, arg, DoChooseSex(s, arg, w))
  {
  }

  lemma FrontKeeps(h: Hash, s: Session, arg: Option<string>, w: World)
    requires Good(s) && !Behind(s.state) && (arg.Some? ==> arg.value != "")
    ensures Keeps(h, s, arg, Handle(h, s, arg, w))
  {
    if s.state.GetEmail? {
      GetEmailKeeps(h, s, arg, w);
    }
  }

  lemma HandleKeeps(h: Hash, s: Session, arg: Option<string>, w: World)
    requires Good(s) && (arg.Some? ==> arg.value != "")
    ensures Keeps(h, s, arg, Handle(h, s, arg, w))
  {
    if !Behind(s.state) {
      FrontKeeps(h, s, arg, w);
    } else {
      match s.state
      case ChooseAnsi => ChooseAnsiKeeps(h, s, arg, w);
      case ShowAccountMenu => ShowAccountMenuKeeps(h, s, arg, w);
      case EnterConfirmCode => EnterConfirmCodeKeeps(h, s, arg, w);
      case ShowCreationMenu => ShowCreationMenuKeeps(h, s, arg, w);
      case ChooseName => ChooseNameKeeps(h, s, arg, w);
      case ChooseSex => ChooseSexKeeps(h, s, arg, w);
      case _ =>
    }
  }

  /** All records saved since carry this account's address and password. */
  predicate SavedOnly(saves: seq<Account>, after: seq<Account>, a: Account) {
    && |saves| <= |after| && after[..|saves|] == saves
    && forall k :: |saves| <= k < |after| ==> after[k].email == a.email && after[k].pwd == a.pwd
  }

  /** The first entry of a new password. */
  predicate Entered(h: Hash, s: Session, arg: Option<string>, email: string, pwd: Option<string>) {
    && (s.state.GetNewUserPassword? || s.state.GetNewPassword?)
    && !Illegal(arg) && pwd == Some(h(email, arg.value))
  }

  /** The code that was mailed is entered. */
  predicate GivesCode(s: Session, arg: Option<string>) {
    s.state.EnterConfirmCode? && s.account.Some? && CodeMatches(s.account.value, arg)
  }

  /** Where passwords come from, and what is saved, in one handler. */
  predicate Tracks(h: Hash, s: Session, arg: Option<string>, w: World, o: Outcome) {
    && (Behind(s.state) ==> s.account.Some? && o.s.account.Some? && SavedOnly(s.saves, o.s.saves, o.s.account.value))
    && (!Behind(s.state) ==> o.s.saves == s.saves)
    && (o.next.GetPassword? ==> s.state.GetEmail? && o.s.account == w.stored && w.stored.Some?)
    && (o.next.ConfirmPassword? ==>
          && o.s.account.Some? && s.state.GetNewUserPassword?
          && Entered(h, s, arg, o.s.account.value.email, o.s.account.value.pwd))
    && (o.next.ConfirmNewPassword? ==>
          && o.s.account.Some? && s.state.GetNewPassword?
          && Entered(h, s, arg, o.s.account.value.email, o.s.account.value.newpwd))
    && (Behind(s.state) || Behind(o.next) ==>
          && s.account.Some? && o.s.account.Some? && o.s.account.value.email == s.account.value.email
          && (o.s.account.value.pwd != s.account.value.pwd ==>
                && s.state.ConfirmNewPassword? && o.s.account.value.pwd == s.account.value.newpwd
                && Matches(h, s.account.value.email, arg, s.account.value.newpwd))
          && (o.s.account.value.confirmed && !s.account.value.confirmed ==> GivesCode(s, arg)))
  }

  lemma GetEmailTracks(h: Hash, s: Session, arg: Option<string>, w: World)
    requires Good(s) && s.state.GetEmail? && (arg.Some? ==> arg.value != "")
    ensures Tracks(h, s, arg, w, DoGetEmail(s, arg, w))
  {
  }

  lemma ChooseAnsiTracks(h: Hash, s: Session, arg: Option<string>, w: World)
    requires Good(s) && s.state.ChooseAnsi? && (arg.Some? ==> arg.value != "")
    ensures Tracks(h, s, arg, w, DoChooseAnsi(s, arg, w))
  {
  }

  lemma ShowAccountMenuTracks(h: Hash, s: Session, arg: Option<string>, w: World)
    requires Good(s) && s.state.ShowAccountMenu? && (arg.Some? ==> arg.value != "")
    ensures Tracks(h, s, arg, w, DoShowAccountMenu(s, arg, w))
  {
  }

  lemma EnterConfirmCodeTracks(h: Hash, s: Session, arg: Option<string>, w: World)
    requires Good(s) && s.state.EnterConfirmCode? && (arg.Some? ==> arg.value != "")
    ensures Tracks(h, s, arg, w, DoEnterConfirmCode(s, arg, w))
  {
  }

  lemma ShowCreationMenuTracks(h: Hash, s: Session, arg: Option<string>, w: World)
    requires Good(s) && s.state.ShowCreationMenu? && (arg.Some? ==> arg.value != "")
    ensures Tracks(h, s, arg, w, DoShowCreationMenu(s, arg, w))
  {
  }

  lemma ChooseNameTracks(h: Hash, s: Session, arg: Option<string>, w: World)
    requires Good(s) && s.state.ChooseName? && (arg.Some? ==> arg.value != "")
    ensures Tracks(h, s, arg, w, DoChooseName(s, arg, w))
  {
  }

  lemma ChooseSexTracks(h: Hash, s: Session, arg: Option<string>, w: World)
    requires Good(s) && s.state.ChooseSex? && (arg.Some? ==> arg.value != "")
    ensures Tracks(h, s, arg, w, DoChooseSex(s, arg, w))
  {
  }

  lemma ConfirmNewPasswordTracks(h: Hash, s: Session, arg: Option<string>, w: World)
    requires Good(s) && s.state.ConfirmNewPassword? && (arg.Some? ==> arg.value != "")
    ensures Tracks(h, s, arg, w, DoConfirmNewPassword(h, s, arg, w))
  {
  }

  lemma HandleTracks(h: Hash, s: Session, arg: Option<string>, w: World)
    requires Good(s) && (arg.Some? ==> arg.value != "")
    ensures Tracks(h, s, arg, w, Handle(h, s, arg, w))
  {
    match s.state
    case GetEmail => GetEmailTracks(h, s, arg, w);
    case ChooseAnsi => ChooseAnsiTracks(h, s, arg, w);
    case ShowAccountMenu => ShowAccountMenuTracks(h, s, arg, w);
    case EnterConfirmCode => EnterConfirmCodeTracks(h, s, arg, w);
    case ShowCreationMenu => ShowCreationMenuTracks(h, s, arg, w);
    case ChooseName => ChooseNameTracks(h, s, arg, w);
    case ChooseSex => ChooseSexTracks(h, s, arg, w);
    case ConfirmNewPassword => ConfirmNewPasswordTracks(h, s, arg, w);
    case _ =>
  }

  /** What one line of input can do to a session. */
  predicate Advances(h: Hash, s: Session, arg: Option<string>, w: World, r: Session) {
    && Good(s) && Good(r)
    && (s.state.Disconnect? ==> r == s)
    && (Behind(r.state) ==>
          && s.account.Some? && r.account.value.email == s.account.value.email
          && (Behind(s.state) || Passes(h, s, arg))
          && (r.account.value.pwd != s.account.value.pwd ==>
                && s.state.ConfirmNewPassword? && r.account.value.pwd == s.account.value.newpwd
                && Matches(h, s.account.value.email, arg, s.account.value.newpwd))
          && (r.account.value.confirmed && !s.account.value.confirmed ==> GivesCode(s, arg)))
    && (r.state.GetPassword? ==> s.state.GetEmail? && r.account == w.stored && w.stored.Some?)
    && (r.state.ConfirmPassword? ==> Entered(h, s, arg, r.account.value.email, r.account.value.pwd))
    && (r.state.ConfirmNewPassword? ==> Entered(h, s, arg, r.account.value.email, r.account.value.newpwd))
    && (r.saves != s.saves ==> Behind(s.state) && Behind(r.state) && SavedOnly(s.saves, r.saves, r.account.value))
  }

  lemma StepAdvances(h: Hash, s: Session, arg: Option<string>, w: World)
    requires Good(s) && (arg.Some? ==> arg.value != "")
    ensures Advances(h, s, arg, w, Step(h, s, arg, w))
  {
    var o := Handle(h, s, arg, w);
    HandleKeeps(h, s, arg, w);
    HandleTracks(h, s, arg, w);
    if !o.next.NoChange? {
      EnterMeans(o.s, o.next, w);
    }
  }

  // ---- whole runs ----

  function Arg(input: Input): Option<string> {
    SkipSpaces(input.line)
  }

  predicate StepsTo(h: Hash, s: Session, input: Input, r: Session) {
    Ready(s) && r == Step(h, s, Arg(input), input.world)
  }

  /** ss are the sessions of a run: before the first line, and after each. */
  predicate IsRun(h: Hash, ins: seq<Input>, ss: seq<Session>) {
    && |ss| == |ins| + 1 && ss[0] == START
    && forall i, j :: 0 <= i < |ins| && j == i + 1 ==> StepsTo(h, ss[i], ins[i], ss[j])
  }

  lemma RunGrows(h: Hash, ins: seq<Input>, ss: seq<Session>, input: Input, r: Session)
    requires IsRun(h, ins, ss) && StepsTo(h, ss[|ins|], input, r)
    ensures IsRun(h, ins + [input], ss + [r])
  {
  }

  predicate Advancing(h: Hash, ins: seq<Input>, ss: seq<Session>) {
    && |ss| == |ins| + 1 && ss[0] == START
    && forall i, j :: 0 <= i < |ins| && j == i + 1 ==> Advances(h, ss[i], Arg(ins[i]), ins[i].world, ss[j])
  }

  lemma GoodStep(h: Hash, s: Session, input: Input, r: Session)
    requires Good(s) && StepsTo(h, s, input, r)
    ensures Advances(h, s, Arg(input), input.world, r)
  {
    StepAdvances(h, s, Arg(input), input.world);
  }

  lemma StaysGood(h: Hash, s: Session, input: Input, r: Session)
    requires Good(s) && StepsTo(h, s, input, r)
    ensures Good(r)
  {
    GoodStep(h, s, input, r);
  }

  /** What holds at first and over every step holds all along. */
  lemma {:induction false} Throughout(ss: seq<Session>, good: Session -> bool, i: nat)
    requires i < |ss| && good(ss[0])
    requires forall j, k :: 0 <= j < |ss| - 1 && k == j + 1 && good(ss[j]) ==> good(ss[k])
    ensures good(ss[i])
  {
    if i > 0 {
      Throughout(ss, good, i - 1);
    }
  }

  lemma RunIsGood(h: Hash, ins: seq<Input>, ss: seq<Session>, i: nat)
    requires IsRun(h, ins, ss) && i <= |ins|
    ensures Good(ss[i])
  {
    var good := (s: Session) => Good(s);
    forall j, k | 0 <= j < |ss| - 1 && k == j + 1 && good(ss[j])
      ensures good(ss[k])
    {
      StaysGood(h, ss[j], ins[j], ss[k]);
    }
    Throughout(ss, good, i);
  }

  lemma RunAdvances(h: Hash, ins: seq<Input>, ss: seq<Session>)
    requires IsRun(h, ins, ss)
    ensures Advancing(h, ins, ss)
  {
    forall i | 0 <= i < |ins|
      ensures Advances(h, ss[i], Arg(ins[i]), ins[i].world, ss[i + 1])
    {
      RunIsGood(h, ins, ss, i);
      assert StepsTo(h, ss[i], ins[i], ss[i + 1]);
      GoodStep(h, ss[i], ins[i], ss[i + 1]);
    }
  }

  /** In every run: the never-entered states are not entered, and the player list, character
      creation and play are for confirmed accounts. */
  lemma EveryState(h: Hash, ins: seq<Input>, ss: seq<Session>, i: nat)
    requires IsRun(h, ins, ss) && i <= |ins|
    ensures !Never(ss[i].state)
    ensures NeedsConfirmed(ss[i].state) ==> ss[i].account.Some? && ss[i].account.value.confirmed
  {
    RunIsGood(h, ins, ss, i);
  }

  /** Once disconnected, nothing changes any more. */
  lemma {:induction false} DisconnectedForGood(h: Hash, ins: seq<Input>, ss: seq<Session>, i: nat, j: nat)
    requires Advancing(h, ins, ss) && i <= j <= |ins| && ss[i].state.Disconnect?
    ensures ss[j] == ss[i]
    decreases j
  {
    if i < j {
      DisconnectedForGood(h, ins, ss, i, j - 1);
    }
  }

  /** Line j was a password that matched, and the session has been behind it, on the same
      account, ever since. */
  predicate AdmittedSince(h: Hash, ins: seq<Input>, ss: seq<Session>, j: nat, i: nat)
    requires j < i < |ss| == |ins| + 1
  {
    && Passes(h, ss[j], Arg(ins[j]))
    && forall k :: j < k <= i ==>
         && Behind(ss[k].state) && ss[k].account.Some?
         && ss[k].account.value.email == ss[j].account.value.email
  }

  /** The account menu and everything behind it is reached by a matching password only. */
  lemma {:induction false} BehindAPassword(h: Hash, ins: seq<Input>, ss: seq<Session>, i: nat)
    requires Advancing(h, ins, ss) && i <= |ins| && Behind(ss[i].state)
    ensures exists j: nat :: j < i && AdmittedSince(h, ins, ss, j, i)
  {
    if i > 0 {
      assert Advances(h, ss[i - 1], Arg(ins[i - 1]), ins[i - 1].world, ss[i]);
      if Behind(ss[i - 1].state) {
        BehindAPassword(h, ins, ss, i - 1);
        var j: nat :| j < i - 1 && AdmittedSince(h, ins, ss, j, i - 1);
        assert AdmittedSince(h, ins, ss, j, i);
      } else {
        assert AdmittedSince(h, ins, ss, i - 1, i);
      }
    }
  }

  /** Line j loaded an account with this address and password. */
  predicate LoadedAt(ins: seq<Input>, ss: seq<Session>, j: nat, email: string, pwd: Option<string>)
    requires j < |ins| < |ss|
  {
    && ss[j].state.GetEmail? && ins[j].world.stored.Some?
    && ins[j].world.stored.value.email == email && ins[j].world.stored.value.pwd == pwd
  }

  /** Lines j and j + 1 entered a new password and confirmed it. */
  predicate PairAt(h: Hash, ins: seq<Input>, ss: seq<Session>, j: nat, email: string, pwd: Option<string>)
    requires j + 1 < |ins| < |ss|
  {
    && Entered(h, ss[j], Arg(ins[j]), email, pwd)
    && (ss[j + 1].state.ConfirmPassword? || ss[j + 1].state.ConfirmNewPassword?)
    && Matches(h, email, Arg(ins[j + 1]), pwd)
  }

  ghost predicate Earned(h: Hash, ins: seq<Input>, ss: seq<Session>, i: nat, email: string, pwd: Option<string>)
    requires i <= |ins| < |ss|
  {
    || (exists j: nat :: j < i && LoadedAt(ins, ss, j, email, pwd))
    || (exists j: nat :: j + 1 < i && PairAt(h, ins, ss, j, email, pwd))
  }

  /** What is known of the passwords at hand after i lines. */
  ghost predicate Known(h: Hash, ins: seq<Input>, ss: seq<Session>, i: nat)
    requires i <= |ins| < |ss|
  {
    var s := ss[i];
    && (Behind(s.state) || s.state.GetPassword? ==>
          s.account.Some? && Earned(h, ins, ss, i, s.account.value.email, s.account.value.pwd))
    && (s.state.ConfirmPassword? ==>
          && s.account.Some? && i > 0
          && Entered(h, ss[i - 1], Arg(ins[i - 1]), s.account.value.email, s.account.value.pwd))
    && (s.state.ConfirmNewPassword? ==>
          && s.account.Some? && i > 0
          && Entered(h, ss[i - 1], Arg(ins[i - 1]), s.account.value.email, s.account.value.newpwd))
  }

  lemma {:induction false} AlwaysKnown(h: Hash, ins: seq<Input>, ss: seq<Session>, i: nat)
    requires Advancing(h, ins, ss) && i <= |ins|
    ensures Known(h, ins, ss, i)
  {
    if i > 0 {
      AlwaysKnown(h, ins, ss, i - 1);
      var s, r, arg := ss[i - 1], ss[i], Arg(ins[i - 1]);
      assert Advances(h, s, arg, ins[i - 1].world, r);
      if r.state.GetPassword? {
        assert LoadedAt(ins, ss, i - 1, r.account.value.email, r.account.value.pwd);
      } else if Behind(r.state) && (s.state.ConfirmPassword? || r.account.value.pwd != s.account.value.pwd) {
        assert PairAt(h, ins, ss, i - 2, r.account.value.email, r.account.value.pwd);
      }
    }
  }

  /** Every account record saved carries the password it was loaded with, or one that two
      consecutive lines entered alike. */
  lemma {:induction false} SavedPasswordsAreEarned(h: Hash, ins: seq<Input>, ss: seq<Session>, i: nat, k: nat)
    requires Advancing(h, ins, ss) && i <= |ins| && k < |ss[i].saves|
    ensures var a := ss[i].saves[k]; Earned(h, ins, ss, i, a.email, a.pwd)
  {
    if i > 0 {
      assert Advances(h, ss[i - 1], Arg(ins[i - 1]), ins[i - 1].world, ss[i]);
      if k < |ss[i - 1].saves| {
        SavedPasswordsAreEarned(h, ins, ss, i - 1, k);
        assert ss[i].saves[k] == ss[i - 1].saves[k] by {
          assert ss[i].saves == ss[i - 1].saves || ss[i].saves[..|ss[i - 1].saves|] == ss[i - 1].saves;
        }
      } else {
        AlwaysKnown(h, ins, ss, i);
      }
    }
  }

  /** Line j loaded a confirmed account, or entered the code that was mailed to it. */
  predicate ConfirmedAt(ins: seq<Input>, ss: seq<Session>, j: nat, email: string)
    requires j < |ins| < |ss|
  {
    || (ss[j].state.GetEmail? && ins[j].world.stored.Some? && ins[j].world.stored.value.confirmed
        && ins[j].world.stored.value.email == email)
    || (GivesCode(ss[j], Arg(ins[j])) && ss[j].account.value.email == email)
  }

  /** The states for confirmed accounts are reached on no other ground. */
  lemma {:induction false} ConfirmedOnGrounds(h: Hash, ins: seq<Input>, ss: seq<Session>, i: nat)
    requires Advancing(h, ins, ss) && i <= |ins| && ss[i].account.Some? && ss[i].account.value.confirmed
    requires Behind(ss[i].state) || ss[i].state.GetPassword?
    ensures exists j: nat :: j < i && ConfirmedAt(ins, ss, j, ss[i].account.value.email)
  {
    if i > 0 {
      var s, r := ss[i - 1], ss[i];
      assert Advances(h, s, Arg(ins[i - 1]), ins[i - 1].world, r);
      if r.state.GetPassword? || !s.account.value.confirmed {
        assert ConfirmedAt(ins, ss, i - 1, r.account.value.email);
      } else {
        ConfirmedOnGrounds(h, ins, ss, i - 1);
      }
    }
  }

  /** Every run of the login state machine, put together. */
  lemma EveryLogin(h: Hash, ins: seq<Input>, ss: seq<Session>, i: nat)
    requires IsRun(h, ins, ss) && i <= |ins|
    ensures Behind(ss[i].state) ==> exists j: nat :: j < i && AdmittedSince(h, ins, ss, j, i)
    ensures NeedsConfirmed(ss[i].state) ==>
              ss[i].account.Some? && exists j: nat :: j < i && ConfirmedAt(ins, ss, j, ss[i].account.value.email)
    ensures forall k :: 0 <= k < |ss[i].saves| ==> Earned(h, ins, ss, i, ss[i].saves[k].email, ss[i].saves[k].pwd)
    ensures ss[i].state.Disconnect? ==> forall j :: i <= j <= |ins| ==> ss[j] == ss[i]
  {
    RunAdvances(h, ins, ss);
    RunIsGood(h, ins, ss, i);
    if Behind(ss[i].state) {
      BehindAPassword(h, ins, ss, i);
    }
    if NeedsConfirmed(ss[i].state) {
      ConfirmedOnGrounds(h, ins, ss, i);
    }
    forall k | 0 <= k < |ss[i].saves|
      ensures Earned(h, ins, ss, i, ss[i].saves[k].email, ss[i].saves[k].pwd)
    {
      SavedPasswordsAreEarned(h, ins, ss, i, k);
    }
    if ss[i].state.Disconnect? {
      forall j | i <= j <= |ins|
        ensures ss[j] == ss[i]
      {
        DisconnectedForGood(h, ins, ss, i, j);
      }
    }
  }

  /** A confirmation that does not match changes neither the password nor what is saved. */
  lemma MismatchSavesNothing(h: Hash, s: Session, arg: Option<string>, w: World)
    requires Good(s) && (arg.Some? ==> arg.value != "")
    requires s.state.ConfirmPassword? || s.state.ConfirmNewPassword?
    requires !Matches(h, s.account.value.email, arg,
                      if s.state.ConfirmPassword? then s.account.value.pwd else s.account.value.newpwd)
    ensures Step(h, s, arg, w) == s.(state := if s.state.ConfirmPassword? then GetNewUserPassword else ShowAccountMenu)
  {
  }

  /** The ANSI question is answered while no code is on record. */
  predicate Unconfirms(s: Session, arg: Option<string>)
    requires arg.Some? ==> arg.value != ""
  {
    && s.state.ChooseAnsi? && s.account.Some? && s.account.value.confcode == ""
    && arg.Some? && (First(arg.value) == 'y' || First(arg.value) == 'n')
  }

  /** Behind the password an account is confirmed after a line just when the line gives its code, or
      it was confirmed before and the line is not such an answer. */
  lemma ConfirmedExactly(h: Hash, s: Session, arg: Option<string>, w: World)
    requires Good(s) && Behind(s.state) && (arg.Some? ==> arg.value != "")
    ensures Step(h, s, arg, w).account.Some?
    ensures Step(h, s, arg, w).account.value.confirmed
        <==> GivesCode(s, arg) || (s.account.value.confirmed && !Unconfirms(s, arg))
  {
    var o := Handle(h, s, arg, w);
    HandleKeeps(h, s, arg, w);
    if !o.next.NoChange? {
      EnterMeans(o.s, o.next, w);
    }
    if s.state.ChooseAnsi? {
      AnsiUnconfirms(s, arg, w);
    } else {
      OthersKeepConfirmed(h, s, arg, w);
    }
  }

  lemma AnsiUnconfirms(s: Session, arg: Option<string>, w: World)
    requires s.state.ChooseAnsi? && s.account.Some? && (arg.Some? ==> arg.value != "")
    ensures var a := DoChooseAnsi(s, arg, w).s.account;
      a.Some? && (a.value.confirmed <==> s.account.value.confirmed && !Unconfirms(s, arg))
  {
  }

  /** What the answer does to the account: the first record saved has the colours, and a second one
      the code if there was none. */
  lemma AnsiOutcome(s: Session, arg: Option<string>, w: World)
    requires s.account.Some? && (arg.Some? ==> arg.value != "")
    ensures var o := DoChooseAnsi(s, arg, w);
      var a := s.account.value.(ansi := Starts(arg, "yY")); var b := a.(id := w.accountId);
      var c := b.(confcode := w.code, confirmed := false);
      if !Starts(arg, "yYnN") then o == Outcome(s, NoChange)
      else if a.confcode != "" then
        o.next == ShowAccountMenu && o.s.account == Some(b) && o.s.saves == s.saves + [a]
      else
        o.next == ShowAccountMenu && o.s.account == Some(c.(id := w.accountId)) && o.s.saves == s.saves + [a, c]
  {
  }

  lemma OthersKeepConfirmed(h: Hash, s: Session, arg: Option<string>, w: World)
    requires Good(s) && Behind(s.state) && !s.state.ChooseAnsi? && (arg.Some? ==> arg.value != "")
    ensures var a := Handle(h, s, arg, w).s.account;
      a.Some? && (a.value.confirmed <==> GivesCode(s, arg) || s.account.value.confirmed)
  {
  }

  lemma ConfirmedStep(h: Hash, s: Session, input: Input, r: Session)
    requires Good(s) && StepsTo(h, s, input, r) && Behind(s.state) && s.account.value.confirmed
    ensures r.account.Some? && (r.account.value.confirmed <==> !Unconfirms(s, Arg(input)))
    ensures Behind(r.state) || r.state.Disconnect?
  {
    ConfirmedExactly(h, s, Arg(input), input.world);
    GoodStep(h, s, input, r);
    StaysBehind(h, s, Arg(input), input.world);
  }

  /** From behind the password a line leads on behind it, or out. */
  lemma StaysBehind(h: Hash, s: Session, arg: Option<string>, w: World)
    requires Good(s) && Behind(s.state) && (arg.Some? ==> arg.value != "")
    ensures var r := Step(h, s, arg, w); Behind(r.state) || r.state.Disconnect?
  {
    var o := Handle(h, s, arg, w);
    HandleKeeps(h, s, arg, w);
    HandleTracks(h, s, arg, w);
    NextFromBehind(h, s, arg, w);
    if !o.next.NoChange? {
      EnterMeans(o.s, o.next, w);
    }
  }

  lemma NextFromBehind(h: Hash, s: Session, arg: Option<string>, w: World)
    requires Good(s) && Behind(s.state) && (arg.Some? ==> arg.value != "")
    ensures var next := Handle(h, s, arg, w).next; Behind(next) || next.Disconnect? || next.NoChange?
  {
  }

  /** What a line does to a confirmed account. */
  predicate ConfirmedOn(s: Session, arg: Option<string>, r: Session)
    requires arg.Some? ==> arg.value != ""
  {
    && (s.state.Disconnect? ==> r == s)
    && (Behind(s.state) && s.account.Some? && s.account.value.confirmed ==>
          && r.account.Some? && (r.account.value.confirmed <==> !Unconfirms(s, arg))
          && (Behind(r.state) || r.state.Disconnect?))
  }

  predicate Confirming(ins: seq<Input>, ss: seq<Session>) {
    |ss| == |ins| + 1 && forall i, j :: 0 <= i < |ins| && j == i + 1 ==> ConfirmedOn(ss[i], Arg(ins[i]), ss[j])
  }

  lemma RunConfirms(h: Hash, ins: seq<Input>, ss: seq<Session>)
    requires IsRun(h, ins, ss)
    ensures Confirming(ins, ss)
  {
    forall i | 0 <= i < |ins|
      ensures ConfirmedOn(ss[i], Arg(ins[i]), ss[i + 1])
    {
      RunIsGood(h, ins, ss, i);
      assert StepsTo(h, ss[i], ins[i], ss[i + 1]);
      GoodStep(h, ss[i], ins[i], ss[i + 1]);
      if Behind(ss[i].state) && ss[i].account.value.confirmed {
        ConfirmedStep(h, ss[i], ins[i], ss[i + 1]);
      }
    }
  }

  lemma {:induction false} ConfirmedSoFar(ins: seq<Input>, ss: seq<Session>, i: nat, j: nat)
    requires Confirming(ins, ss) && i <= j < |ins| && Behind(ss[i].state)
    requires ss[i].account.Some? && ss[i].account.value.confirmed
    requires forall k :: i <= k < j ==> !Unconfirms(ss[k], Arg(ins[k]))
    ensures ss[j].account.Some? && ss[j].account.value.confirmed && (Behind(ss[j].state) || ss[j].state.Disconnect?)
    decreases j
  {
    if i < j {
      ConfirmedSoFar(ins, ss, i, j - 1);
      assert ConfirmedOn(ss[j - 1], Arg(ins[j - 1]), ss[j]);
    }
  }

  /** In every run a confirmed account stays confirmed until the first such answer, and no longer. */
  lemma ConfirmedUntilAnswer(h: Hash, ins: seq<Input>, ss: seq<Session>, i: nat, j: nat)
    requires IsRun(h, ins, ss) && i <= j < |ins| && Behind(ss[i].state)
    requires ss[i].account.Some? && ss[i].account.value.confirmed
    requires forall k :: i <= k < j ==> !Unconfirms(ss[k], Arg(ins[k]))
    ensures ss[j].account.Some? && ss[j].account.value.confirmed
    ensures ss[j + 1].account.Some? && (ss[j + 1].account.value.confirmed <==> !Unconfirms(ss[j], Arg(ins[j])))
  {
    RunConfirms(h, ins, ss);
    ConfirmedSoFar(ins, ss, i, j);
    assert ConfirmedOn(ss[j], Arg(ins[j]), ss[j + 1]);
  }

  // A run that gets there: a confirmed account without a code logs in and answers the question.

  const QUIET := World(None, false, None, false, 1, "", None, None, 0, None,
                       [[0, 0, 0, 0], [0, 0, 0, 0], [0, 0, 0, 0], [0, 0, 0, 0], [0, 0, 0, 0], [0, 0, 0, 0]],
                       false, false, false, false)

  function Ann(h: Hash): Account {
    Account(1, "ann@mud.org", Some(h("ann@mud.org", "pw")), None, "", false, true)
  }

  function AnsiLines(h: Hash): seq<Input> {
    [Input("ann@mud.org", QUIET.(email := Some("ann@mud.org"), stored := Some(Ann(h)))),
     Input("pw", QUIET), Input("1", QUIET), Input("y", QUIET.(code := "A CODE"))]
  }

  function AnsiSessions(h: Hash): seq<Session> {
    var a := Ann(h);
    var b := a.(ansi := true);
    var c := b.(confcode := "A CODE", confirmed := false);
    [START, START.(state := GetPassword, account := Some(a)), START.(state := ShowAccountMenu, account := Some(a)),
     START.(state := ChooseAnsi, account := Some(a)), Session(ShowAccountMenu, Some(c), None, [b, c], [])]
  }

  lemma EmailLine(h: Hash)
    ensures StepsTo(h, START, AnsiLines(h)[0], AnsiSessions(h)[1])
  {
  }

  lemma PasswordLine(h: Hash)
    ensures StepsTo(h, AnsiSessions(h)[1], AnsiLines(h)[1], AnsiSessions(h)[2])
  {
  }

  lemma MenuLine(h: Hash)
    ensures StepsTo(h, AnsiSessions(h)[2], AnsiLines(h)[2], AnsiSessions(h)[3])
  {
  }

  lemma Answered(a: Account, w: World)
    requires a.confcode == "" && w.accountId == a.id && w.code != ""
    ensures var b := a.(ansi := true); var c := b.(confcode := w.code, confirmed := false);
      DoChooseAnsi(START.(state := ChooseAnsi, account := Some(a)), Some("y"), w)
      == Outcome(Session(ResendConfirmEmail, Some(c), None, [b, c], []), ShowAccountMenu)
  {
  }

  lemma AnswerLine(h: Hash)
    ensures StepsTo(h, AnsiSessions(h)[3], AnsiLines(h)[3], AnsiSessions(h)[4])
  {
    Answered(Ann(h), AnsiLines(h)[3].world);
  }

  lemma AnsiRunUnconfirms(h: Hash)
    ensures IsRun(h, AnsiLines(h), AnsiSessions(h))
    ensures AnsiSessions(h)[2].account == Some(Ann(h)) && Ann(h).confirmed
    ensures AnsiSessions(h)[4].account.Some? && !AnsiSessions(h)[4].account.value.confirmed
  {
    EmailLine(h);
    PasswordLine(h);
    MenuLine(h);
    AnswerLine(h);
    var ins, ss := AnsiLines(h), AnsiSessions(h);
    forall i, j | 0 <= i < |ins| && j == i + 1
      ensures StepsTo(h, ss[i], ins[i], ss[j])
    {
      assert i == 0 || i == 1 || i == 2 || i == 3;
    }
  }

  // ---- ability rolls ----

  /** Rolls made and rolls left make up what was granted, no more is spent than there is, and
      the scores, once rolled, are six of 3 to 18. */
  predicate Budgeted(pc: PC) {
    && pc.made + pc.rerolls == pc.granted
    && (pc.granted >= 0 ==> pc.rerolls >= 0)
    && (pc.made == 0 ==> pc.scores == [])
    && (pc.made > 0 ==> |pc.scores| == 6 && forall i :: 0 <= i < 6 ==> 3 <= pc.scores[i] <= 18)
  }

  predicate AllBudgeted(s: Session) {
    && (s.pc.Some? ==> Budgeted(s.pc.value))
    && forall k :: 0 <= k < |s.pcSaves| ==> Budgeted(s.pcSaves[k])
  }

  /** The same character, one from the database, or a new one with one roll more than MaxReroll. */
  predicate SameOrNew(s: Session, w: World, r: Session) {
    r.pc.Some? ==>
      || (s.pc.Some? && r.pc.value.granted == s.pc.value.granted && r.pc.value.made >= s.pc.value.made)
      || r.pc == w.loaded
      || (s.pc.None? && r.pc.value.granted == Granted(w))
  }

  lemma RolledIsBudgeted(pc: PC, w: World)
    requires Budgeted(pc)
    ensures Budgeted(Rolled(pc, w)) && Rolled(pc, w).granted == pc.granted
  {
    forall i | 0 <= i < 6
      ensures 3 <= Scores(w.random)[i] <= 18
    {
      Dice.KeptBetween(w.random[i], 6, 3);
    }
  }

  lemma RollKeepsBudgets(s: Session, w: World)
    requires AllBudgeted(s)
    ensures var r := SavePc(RollAbilities(s, w), w); AllBudgeted(r) && SameOrNew(s, w, r) && r.state == s.state
  {
    if s.pc.Some? {
      RolledIsBudgeted(s.pc.value, w);
    }
  }

  lemma SaveKeepsBudgets(s: Session, w: World)
    requires AllBudgeted(s)
    ensures AllBudgeted(SavePc(s, w)) && SameOrNew(s, w, SavePc(s, w))
  {
  }

  lemma ChooseNameBudgets(s: Session, arg: Option<string>, w: World)
    requires s.account.Some? && AllBudgeted(s) && (w.loaded.Some? ==> Budgeted(w.loaded.value))
    ensures var o := DoChooseName(s, arg, w); AllBudgeted(o.s) && SameOrNew(s, w, o.s)
  {
    if arg.Some? && w.found.None? {
      if s.pc.Some? {
        SaveKeepsBudgets(s.(pc := Some(s.pc.value.(name := arg.value))), w);
      } else {
        var pc := PC(0, s.account.value.id, arg.value, false, 0, Granted(w), [], 0, Granted(w));
        RollKeepsBudgets(s.(pc := Some(pc)), w);
      }
    }
  }

  lemma ChooseSexBudgets(s: Session, arg: Option<string>, w: World)
    requires AllBudgeted(s) && (arg.Some? ==> arg.value != "")
    ensures var o := DoChooseSex(s, arg, w); AllBudgeted(o.s) && SameOrNew(s, w, o.s)
  {
  }

  lemma EnterBudgets(s: Session, st: St, w: World)
    requires AllBudgeted(s) && !st.ResendConfirmEmail?
    ensures AllBudgeted(Enter(s, st, w)) && SameOrNew(s, w, Enter(s, st, w))
  {
    if st.RerollAbilities? {
      RollKeepsBudgets(s, w);
    }
  }

  lemma OthersLeavePcs(h: Hash, s: Session, arg: Option<string>, w: World)
    requires Good(s) && (arg.Some? ==> arg.value != "") && !s.state.ChooseName? && !s.state.ChooseSex?
    ensures Handle(h, s, arg, w).s.pc == s.pc && Handle(h, s, arg, w).s.pcSaves == s.pcSaves
  {
  }

  predicate LoadedBudgeted(w: World) {
    w.loaded.Some? ==> Budgeted(w.loaded.value)
  }

  predicate KeepsBudgets(s: Session, w: World, r: Session) {
    AllBudgeted(s) && LoadedBudgeted(w) ==> AllBudgeted(r) && SameOrNew(s, w, r)
  }

  lemma EnterKeeps(s: Session, st: St, w: World)
    requires st.ResendConfirmEmail? ==> s.account.Some?
    ensures var r := Enter(s, st, w);
      && KeepsBudgets(s, w, r)
      && (!st.ResendConfirmEmail? ==> r.account == s.account && r.saves == s.saves)
      && (!st.RerollAbilities? ==> r.pc == s.pc && r.pcSaves == s.pcSaves)
  {
    if st.RerollAbilities? {
      if AllBudgeted(s) {
        EnterBudgets(s, st, w);
      }
    }
  }

  lemma HandleBudgets(h: Hash, s: Session, arg: Option<string>, w: World)
    requires Good(s) && (arg.Some? ==> arg.value != "")
    ensures KeepsBudgets(s, w, Handle(h, s, arg, w).s)
  {
    if AllBudgeted(s) && LoadedBudgeted(w) {
      if s.state.ChooseName? {
        ChooseNameBudgets(s, arg, w);
      } else if s.state.ChooseSex? {
        ChooseSexBudgets(s, arg, w);
      } else {
        OthersLeavePcs(h, s, arg, w);
      }
    }
  }

  /** All that every handler keeps to: where it may lead, for whom, what becomes of passwords, saved
      records and rolls. */
  predicate Lawful(h: Hash, s: Session, arg: Option<string>, w: World, o: Outcome) {
    Keeps(h, s, arg, o) && Tracks(h, s, arg, w, o) && KeepsBudgets(s, w, o.s)
  }

  lemma HandleLawful(h: Hash, s: Session, arg: Option<string>, w: World)
    requires Good(s) && (arg.Some? ==> arg.value != "")
    ensures Lawful(h, s, arg, w, Handle(h, s, arg, w))
  {
    HandleKeeps(h, s, arg, w);
    HandleTracks(h, s, arg, w);
    HandleBudgets(h, s, arg, w);
  }

  lemma StepBudgets(h: Hash, s: Session, arg: Option<string>, w: World)
    requires Good(s) && (arg.Some? ==> arg.value != "")
    ensures KeepsBudgets(s, w, Step(h, s, arg, w))
  {
    var o := Handle(h, s, arg, w);
    HandleKeeps(h, s, arg, w);
    HandleBudgets(h, s, arg, w);
    if !o.next.NoChange? && AllBudgeted(s) && LoadedBudgeted(w) {
      EnterBudgets(o.s, o.next, w);
    }
  }

  lemma BudgetStep(h: Hash, s: Session, input: Input, r: Session)
    requires Good(s) && StepsTo(h, s, input, r)
    ensures KeepsBudgets(s, input.world, r)
  {
    StepBudgets(h, s, Arg(input), input.world);
  }

  /** If every character the database returns is budgeted, so is every one at hand or saved,
      through renames, rerolls and turns round the menus. */
  lemma {:induction false} RunBudgets(h: Hash, ins: seq<Input>, ss: seq<Session>, i: nat)
    requires IsRun(h, ins, ss) && i <= |ins|
    requires forall k :: 0 <= k < |ins| ==> LoadedBudgeted(ins[k].world)
    ensures AllBudgeted(ss[i])
    ensures i > 0 ==> SameOrNew(ss[i - 1], ins[i - 1].world, ss[i])
  {
    if i > 0 {
      RunBudgets(h, ins, ss, i - 1);
      RunIsGood(h, ins, ss, i - 1);
      assert StepsTo(h, ss[i - 1], ins[i - 1], ss[i]);
      BudgetStep(h, ss[i - 1], ins[i - 1], ss[i]);
    }
  }
}
