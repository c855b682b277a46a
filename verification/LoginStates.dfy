/** corefunc/login-sm.c as a function of one session: what one line of input does to it. */
module LoginStates {
  import opened Basics
  import KeyOrder
  import Dice

  datatype St =
    | Initial | GetEmail | ConfirmEmail | GetNewUserPassword | ConfirmPassword | GetPassword | ChooseAnsi
    | ShowMotd | ShowWmotd | ShowCredits | Disconnect | PressEnter | ShowAccountMenu | ShowPlayerList
    | GetNewPassword | ConfirmNewPassword | EnterConfirmCode | ResendConfirmEmail | ShowCreationMenu
    | ChooseName | ChooseSex | ChooseRace | ChooseClass | ChooseStats | ChooseAlignment | RerollAbilities
    | ShowLoginMenu | WaitForAuth | EditExtraDescr | DeleteUser | Playing | NoChange

  /** A password or code that is NULL is None; an empty confirmation code counts like none. */
  datatype Account = Account(id: int, email: string, pwd: Option<string>, newpwd: Option<string>,
                             confcode: string, ansi: bool, confirmed: bool)

  /** A character in the making. made counts the rolls made so far and granted is what rerolls
      started at: two records of the past that no handler reads. */
  datatype PC = PC(id: int, accountId: int, name: string, complete: bool, sex: int,
                   rerolls: int, scores: seq<int>, made: nat, granted: int)

  /** The numbers random() gives for six scores of four dice. */
  type Throws = r: seq<seq<nat>> | |r| == 6 && forall i :: 0 <= i < 6 ==> |r[i]| == 4
    witness [[0, 0, 0, 0], [0, 0, 0, 0], [0, 0, 0, 0], [0, 0, 0, 0], [0, 0, 0, 0], [0, 0, 0, 0]]

  /** What the world outside answers while one line is handled. */
  datatype World = World(
    email: Option<string>, banned: bool, stored: Option<Account>, wizLocked: bool,
    accountId: int, code: string,
    found: Option<PC>, loaded: Option<PC>, pcId: int, maxReroll: Option<int>, random: Throws,
    hasClass: bool, hasSex: bool, hasAlignment: bool, hasCon: bool)

  /** saves and pcSaves are the records handed to the database so far. */
  datatype Session = Session(state: St, account: Option<Account>, pc: Option<PC>,
                             saves: seq<Account>, pcSaves: seq<PC>)

  /** The password hash: e-mail address and password to text. */
  type Hash = (string, string) -> string

  /** strncmp(a, b, 32) finds no difference. */
  predicate Same32(a: string, b: string) {
    (if |a| > 32 then a[..32] else a) == (if |b| > 32 then b[..32] else b)
  }

  /** The first n characters are the same, or all of them if there are fewer. */
  predicate Alike(a: string, b: string, n: nat) {
    && (|a| == |b| || (|a| >= n && |b| >= n))
    && forall i :: 0 <= i < n && i < |a| && i < |b| ==> a[i] == b[i]
  }

  lemma Same32Means(a: string, b: string)
    ensures Same32(a, b) <==> Alike(a, b, 32)
  {
    var c, d := if |a| > 32 then a[..32] else a, if |b| > 32 then b[..32] else b;
    if c == d {
      forall i | 0 <= i < 32 && i < |a| && i < |b|
        ensures a[i] == b[i]
      {
        assert c[i] == d[i];
      }
    }
  }

  predicate Matches(h: Hash, email: string, arg: Option<string>, pwd: Option<string>) {
    arg.Some? && pwd.Some? && Same32(h(email, arg.value), pwd.value)
  }

  /** The answer begins with one of these characters. */
  predicate Starts(arg: Option<string>, choices: string) {
    arg.Some? && arg.value != "" && arg.value[0] in choices
  }

  function First(arg: string): char
    requires arg != ""
  {
    KeyOrder.Lower(arg[0])
  }

  const MALE: int := 1
  const FEMALE: int := 2
  const NEUTRAL: int := 0

  // ---- saving ----

  /** pb_save_account: the record goes out, and the database's answer may bring a new id. */
  function SaveAccount(s: Session, w: World): Session
    requires s.account.Some?
  {
    s.(saves := s.saves + [s.account.value], account := Some(s.account.value.(id := w.accountId)))
  }

  /** pb_save_pc: nothing to save without a character of a numbered account. */
  function SavePc(s: Session, w: World): Session {
    if s.pc.None? || s.pc.value.accountId == 0 then s
    else s.(pcSaves := s.pcSaves + [s.pc.value], pc := Some(s.pc.value.(id := w.pcId)))
  }

  /** CreateSendConfirmEmail: an account without a code gets one, is unconfirmed and saved. */
  function SendCode(s: Session, w: World): Session
    requires s.account.Some?
  {
    if s.account.value.confcode == "" then
      SaveAccount(s.(account := Some(s.account.value.(confcode := w.code, confirmed := false))), w)
    else s
  }

  /** RollAbilities: a roll is spent and six scores are thrown, unless no rolls are left. */
  function Rolled(pc: PC, w: World): PC {
    if pc.rerolls == 0 then pc
    else pc.(rerolls := pc.rerolls - 1, scores := Scores(w.random), made := pc.made + 1)
  }

  /** dice(4, 6, 3) six times. */
  function Scores(random: Throws): seq<int> {
    seq(6, i requires 0 <= i < 6 => Dice.Kept(random[i], 6, 3))
  }

  function RollAbilities(s: Session, w: World): Session {
    if s.pc.None? then s else s.(pc := Some(Rolled(s.pc.value, w)))
  }

  // ---- entering a state ----

  /** EnterState with the enter handlers; rerolling enters the creation menu on the way. */
  function Enter(s: Session, st: St, w: World): Session
    requires st.ResendConfirmEmail? ==> s.account.Some?
    decreases st.RerollAbilities?
  {
    match st
    case ResendConfirmEmail => SendCode(s, w).(state := st)
    case RerollAbilities => Enter(SavePc(RollAbilities(s, w), w), ShowCreationMenu, w).(state := st)
    case _ => s.(state := st)
  }

  lemma EnterMeans(s: Session, st: St, w: World)
    requires !st.ResendConfirmEmail?
    ensures var r := Enter(s, st, w);
      && r.state == st && r.account == s.account && r.saves == s.saves
      && (!st.RerollAbilities? ==> r == s.(state := st))
  {
  }

  // ---- the handlers: the session after, and the state to enter ----

  datatype Outcome = Outcome(s: Session, next: St)

  function DoGetEmail(s: Session, arg: Option<string>, w: World): Outcome {
    if arg.None? then
      Outcome(s.(account := if s.account.Some? then Some(s.account.value.(email := "")) else None), Disconnect)
    else if w.email.None? then Outcome(s, NoChange)
    else if w.banned then Outcome(s, Disconnect)
    else if w.stored.Some? then Outcome(s.(account := w.stored), GetPassword)
    else if w.wizLocked then Outcome(s.(account := None), Disconnect)
    else Outcome(s.(account := Some(Account(0, w.email.value, None, None, "", false, false))), ConfirmEmail)
  }

  function DoConfirmEmail(s: Session, arg: Option<string>): Outcome
    requires arg.Some? ==> arg.value != ""
  {
    if arg.None? then Outcome(s, NoChange)
    else match First(arg.value)
      case 'y' => Outcome(s, GetNewUserPassword)
      case 'n' => Outcome(s, GetEmail)
      case _ => Outcome(s, NoChange)
  }

  predicate Illegal(arg: Option<string>) {
    arg.None? || |arg.value| > 10
  }

  function DoGetNewUserPassword(h: Hash, s: Session, arg: Option<string>): Outcome
    requires s.account.Some?
  {
    if Illegal(arg) then Outcome(s, GetNewUserPassword)
    else
      var a := s.account.value;
      Outcome(s.(account := Some(a.(pwd := Some(h(a.email, arg.value))))), ConfirmPassword)
  }

  function DoConfirmPassword(h: Hash, s: Session, arg: Option<string>): Outcome
    requires s.account.Some?
  {
    Outcome(s, if Matches(h, s.account.value.email, arg, s.account.value.pwd) then ChooseAnsi else GetNewUserPassword)
  }

  function DoGetPassword(h: Hash, s: Session, arg: Option<string>): Outcome
    requires s.account.Some?
  {
    Outcome(s, if Matches(h, s.account.value.email, arg, s.account.value.pwd) then ShowAccountMenu else Disconnect)
  }

  function DoChooseAnsi(s: Session, arg: Option<string>, w: World): Outcome
    requires s.account.Some? && (arg.Some? ==> arg.value != "")
  {
    if arg.None? || (First(arg.value) != 'y' && First(arg.value) != 'n') then Outcome(s, NoChange)
    else
      var saved := SaveAccount(s.(account := Some(s.account.value.(ansi := First(arg.value) == 'y'))), w);
      if saved.account.value.confcode == "" then Outcome(Enter(saved, ResendConfirmEmail, w), ShowAccountMenu)
      else Outcome(saved, ShowAccountMenu)
  }

  function DoShowAccountMenu(s: Session, arg: Option<string>, w: World): Outcome
    requires s.account.Some? && (arg.Some? ==> arg.value != "")
  {
    if arg.None? then Outcome(s, ShowAccountMenu)
    else
      var confirmed := s.account.value.confirmed;
      match First(arg.value)
      case '1' => Outcome(s, ChooseAnsi)
      case '2' => Outcome(s, GetNewPassword)
      case '3' => Outcome(s, ShowMotd)
      case '4' => Outcome(s, ShowCredits)
      case '5' => Outcome(s, if confirmed then ShowPlayerList else ShowAccountMenu)
      case '6' => Outcome(s, if confirmed then ShowCreationMenu else ShowAccountMenu)
      case '7' => Outcome(s, if confirmed then Playing else ShowAccountMenu)
      case 'e' => Outcome(s, if confirmed then ShowAccountMenu else EnterConfirmCode)
      case 'r' => Outcome(if confirmed then s else Enter(s, ResendConfirmEmail, w), ShowAccountMenu)
      case 'q' => Outcome(s, Disconnect)
      case _ => Outcome(s, ShowAccountMenu)
  }

  function DoGetNewPassword(h: Hash, s: Session, arg: Option<string>): Outcome
    requires s.account.Some?
  {
    if Illegal(arg) then Outcome(s, GetNewPassword)
    else
      var a := s.account.value;
      Outcome(s.(account := Some(a.(newpwd := Some(h(a.email, arg.value))))), ConfirmNewPassword)
  }

  function DoConfirmNewPassword(h: Hash, s: Session, arg: Option<string>, w: World): Outcome
    requires s.account.Some?
  {
    if !Matches(h, s.account.value.email, arg, s.account.value.newpwd) then Outcome(s, ShowAccountMenu)
    else Outcome(SaveAccount(s.(account := Some(s.account.value.(pwd := s.account.value.newpwd, newpwd := None))), w),
                 ShowAccountMenu)
  }

  predicate CodeMatches(a: Account, arg: Option<string>) {
    arg.Some? && a.confcode != "" && KeyOrder.CompareText(arg.value, a.confcode) == 0
  }

  function DoEnterConfirmCode(s: Session, arg: Option<string>, w: World): Outcome
    requires s.account.Some?
  {
    if arg.None? then Outcome(s, ShowAccountMenu)
    else if CodeMatches(s.account.value, arg) then
      Outcome(SaveAccount(s.(account := Some(s.account.value.(confirmed := true, confcode := ""))), w), ShowAccountMenu)
    else
      Outcome(SaveAccount(s.(account := Some(s.account.value.(confirmed := false))), w), ShowAccountMenu)
  }

  function DoShowCreationMenu(s: Session, arg: Option<string>, w: World): Outcome
    requires arg.Some? ==> arg.value != ""
  {
    if arg.None? then Outcome(s, ShowCreationMenu)
    else match First(arg.value)
      case '1' => Outcome(s, ChooseName)
      case 'r' => Outcome(s, RerollAbilities)
      case '2' => Outcome(s, ChooseSex)
      case '3' => Outcome(s, ChooseRace)
      case '4' => Outcome(s, ChooseClass)
      case '5' => Outcome(s, if w.hasClass then ChooseStats else NoChange)
      case '6' => Outcome(s, ChooseAlignment)
      case 'd' => Outcome(s, if w.hasSex && w.hasAlignment && w.hasCon then ShowAccountMenu else ShowCreationMenu)
      case _ => Outcome(s, ShowCreationMenu)
  }

  /** What a new character may roll: one roll more than it may reroll. */
  function Granted(w: World): int {
    if w.maxReroll.None? then 1 else w.maxReroll.value + 1
  }

  function DoChooseName(s: Session, arg: Option<string>, w: World): Outcome
    requires s.account.Some?
  {
    if arg.None? then Outcome(s, ShowCreationMenu)
    else if w.found.Some? then
      if w.found.value.accountId != s.account.value.id then Outcome(s, ChooseName)
      else if w.loaded.Some? && w.loaded.value.complete then Outcome(s.(pc := None), ShowAccountMenu)
      else Outcome(s.(pc := w.loaded), ShowCreationMenu)
    else if s.pc.Some? then
      Outcome(SavePc(s.(pc := Some(s.pc.value.(name := arg.value))), w), ShowCreationMenu)
    else
      var pc := PC(0, s.account.value.id, arg.value, false, 0, Granted(w), [], 0, Granted(w));
      Outcome(SavePc(RollAbilities(s.(pc := Some(pc)), w), w), ShowCreationMenu)
  }

  function DoChooseSex(s: Session, arg: Option<string>, w: World): Outcome
    requires arg.Some? ==> arg.value != ""
  {
    if arg.None? || (First(arg.value) != 'm' && First(arg.value) != 'f' && First(arg.value) != 'n') then
      Outcome(s, ChooseSex)
    else
      var sex := match First(arg.value) case 'm' => MALE case 'f' => FEMALE case _ => NEUTRAL;
      var chosen := if s.pc.Some? then s.(pc := Some(s.pc.value.(sex := sex))) else s;
      Outcome(SavePc(chosen, w), ShowCreationMenu)
  }

  // ---- one line of input ----

  /** The states whose handlers look at the account, which they take to be there. */
  predicate NeedsAccount(st: St) {
    !st.Initial? && !st.GetEmail? && !st.Disconnect?
  }

  predicate Ready(s: Session) {
    NeedsAccount(s.state) ==> s.account.Some?
  }

  /** The table loginStates: the states without a handler lead to Disconnect. */
  function Handle(h: Hash, s: Session, arg: Option<string>, w: World): Outcome
    requires Ready(s) && (arg.Some? ==> arg.value != "")
  {
    match s.state
    case Initial => Outcome(s, GetEmail)
    case GetEmail => DoGetEmail(s, arg, w)
    case ConfirmEmail => DoConfirmEmail(s, arg)
    case GetNewUserPassword => DoGetNewUserPassword(h, s, arg)
    case ConfirmPassword => DoConfirmPassword(h, s, arg)
    case GetPassword => DoGetPassword(h, s, arg)
    case ChooseAnsi => DoChooseAnsi(s, arg, w)
    case ShowMotd => Outcome(s, ShowAccountMenu)
    case ShowWmotd => Outcome(s, ShowAccountMenu)
    case ShowCredits => Outcome(s, ShowAccountMenu)
    case PressEnter => Outcome(s, ShowLoginMenu)
    case ShowAccountMenu => DoShowAccountMenu(s, arg, w)
    case ShowPlayerList => Outcome(s, ShowAccountMenu)
    case GetNewPassword => DoGetNewPassword(h, s, arg)
    case ConfirmNewPassword => DoConfirmNewPassword(h, s, arg, w)
    case EnterConfirmCode => DoEnterConfirmCode(s, arg, w)
    case ShowCreationMenu => DoShowCreationMenu(s, arg, w)
    case ChooseName => DoChooseName(s, arg, w)
    case ChooseSex => DoChooseSex(s, arg, w)
    case ChooseRace => Outcome(s, ShowCreationMenu)
    case ChooseClass => Outcome(s, ShowCreationMenu)
    case ChooseStats => Outcome(s, ShowCreationMenu)
    case ChooseAlignment => Outcome(s, ShowCreationMenu)
    case RerollAbilities => Outcome(s, ShowCreationMenu)
    case ShowLoginMenu => Outcome(s, ShowLoginMenu)
    case WaitForAuth => Outcome(s, ShowCreationMenu)
    case EditExtraDescr => Outcome(s, ShowLoginMenu)
    case DeleteUser => Outcome(s, ShowCreationMenu)
    case Disconnect => Outcome(s, Disconnect)
    case ResendConfirmEmail => Outcome(s, Disconnect)
    case Playing => Outcome(s, Disconnect)
    case NoChange => Outcome(s, Disconnect)
  }

  predicate Space(c: char) {
    c in {' ', '\t', '\n', '\r', 11 as char, 12 as char}
  }

  /** skip_spaces: what is left from the first character that is no space, and NULL if none is. */
  function SkipSpaces(line: string): (arg: Option<string>)
    ensures arg.Some? ==> arg.value != "" && !Space(arg.value[0])
  {
    if line == "" then None else if Space(line[0]) then SkipSpaces(line[1..]) else Some(line)
  }

  /** White space in the C locale. */
  predicate WhiteSpace(c: char) {
    c as int == 32 || 9 <= c as int <= 13
  }

  lemma {:induction false} SkipSpacesMeans(line: string)
    ensures match SkipSpaces(line)
      case None => forall c <- line :: WhiteSpace(c)
      case Some(t) => t != "" && !WhiteSpace(t[0]) && |t| <= |line| && t == line[|line| - |t|..]
                      && forall i :: 0 <= i < |line| - |t| ==> WhiteSpace(line[i])
  {
    if line != "" && Space(line[0]) {
      SkipSpacesMeans(line[1..]);
    }
  }

  /** A score is the most that three of its four dice, of six faces each, show together. */
  lemma ScoresAreBestThree(random: Throws, i: nat, three: seq<int>)
    requires i < 6
    ensures var dice := Dice.Faces(random[i], 6);
      && |Scores(random)| == 6 && |dice| == 4 && Dice.AddsUp(dice, 3, Scores(random)[i])
      && (|three| == 3 && multiset(three) <= multiset(dice) ==> Dice.Total(three) <= Scores(random)[i])
  {
    Dice.KeptIsBest(random[i], 6, 3, three);
  }

  /** LoginStateMachine after skip_spaces. */
  function Step(h: Hash, s: Session, arg: Option<string>, w: World): (r: Session)
    requires Ready(s) && (arg.Some? ==> arg.value != "")
  {
    var o := Handle(h, s, arg, w);
    if o.next.NoChange? then o.s else Enter(o.s, o.next, w)
  }

  /** The state after a line is the one the handler names, or the one before; entering it touches
      nothing else, but that to reroll throws the dice. */
  lemma StepEnters(h: Hash, s: Session, arg: Option<string>, w: World)
    requires Ready(s) && (arg.Some? ==> arg.value != "")
    ensures var o := Handle(h, s, arg, w); var r := Step(h, s, arg, w);
      && r.state == (if o.next.NoChange? then o.s.state else o.next)
      && r.account == o.s.account && r.saves == o.s.saves
      && (!o.next.RerollAbilities? ==> r.pc == o.s.pc && r.pcSaves == o.s.pcSaves)
      && (o.next.RerollAbilities? && o.s.pc.Some? && o.s.pc.value.rerolls != 0 ==>
            && r.pc.Some? && r.pc.value.scores == Scores(w.random)
            && (o.s.pc.value.accountId != 0 ==>
                  |r.pcSaves| == |o.s.pcSaves| + 1 && r.pcSaves[|o.s.pcSaves|].scores == Scores(w.random)))
  {
    var o := Handle(h, s, arg, w);
    if !o.next.NoChange? {
      EnterMeans(o.s, o.next, w);
    }
  }
}
