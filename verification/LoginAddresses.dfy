/** corefunc/login-sm.c: whose address an account carries, over whole runs. */
module LoginAddresses {
  import opened Basics
  import opened LoginStates
  import opened LoginRuns

  /** The line opens an account: the stored one that was asked for, or a new one with the address typed. */
  predicate Opens(s: Session, arg: Option<string>, w: World, email: string) {
    && s.state.GetEmail? && arg.Some? && w.email.Some? && !w.banned
    && if w.stored.Some? then email == w.stored.value.email else !w.wizLocked && email == w.email.value
  }

  /** After a line the account at hand is the one it opened or carries the address it carried before,
      and what the line saves carries that address. */
  predicate KeepsAddress(s: Session, arg: Option<string>, w: World, r: Session) {
    && (NeedsAccount(r.state) ==> r.account.Some?)
    && (NeedsAccount(r.state) && !(NeedsAccount(s.state) && s.account.Some? &&
                                   r.account.value.email == s.account.value.email) ==>
          Opens(s, arg, w, r.account.value.email))
    && s.saves <= r.saves && (r.saves != s.saves ==> NeedsAccount(s.state) && s.account.Some?)
    && forall k :: |s.saves| <= k < |r.saves| ==> r.saves[k].email == s.account.value.email
  }

  lemma OpeningKeepsAddress(h: Hash, s: Session, arg: Option<string>, w: World)
    requires Good(s) && !Behind(s.state) && (arg.Some? ==> arg.value != "")
    ensures var o := Handle(h, s, arg, w);
      !o.next.NoChange? && NeedsAccount(o.next) ==>
        && o.s.account.Some?
        && if s.state.GetEmail? then Opens(s, arg, w, o.s.account.value.email)
           else s.account.Some? && o.s.account.value.email == s.account.value.email
  {
  }

  lemma StepKeepsAddress(h: Hash, s: Session, arg: Option<string>, w: World)
    requires Good(s) && (arg.Some? ==> arg.value != "")
    ensures KeepsAddress(s, arg, w, Step(h, s, arg, w))
  {
    var r := Step(h, s, arg, w);
    StepAdvances(h, s, arg, w);
    if Behind(s.state) {
      StaysBehind(h, s, arg, w);
    } else if !Behind(r.state) && NeedsAccount(r.state) {
      OpeningKeepsAddress(h, s, arg, w);
      HandleKeeps(h, s, arg, w);
      EnterMeans(Handle(h, s, arg, w).s, Handle(h, s, arg, w).next, w);
    }
  }

  predicate Keeping(ins: seq<Input>, ss: seq<Session>) {
    && |ss| == |ins| + 1 && ss[0] == START
    && forall i, j :: 0 <= i < |ins| && j == i + 1 ==> KeepsAddress(ss[i], Arg(ins[i]), ins[i].world, ss[j])
  }

  lemma RunKeepsAddress(h: Hash, ins: seq<Input>, ss: seq<Session>)
    requires IsRun(h, ins, ss)
    ensures Keeping(ins, ss)
  {
    forall i, j | 0 <= i < |ins| && j == i + 1
      ensures KeepsAddress(ss[i], Arg(ins[i]), ins[i].world, ss[j])
    {
      RunIsGood(h, ins, ss, i);
      assert StepsTo(h, ss[i], ins[i], ss[j]);
      StepKeepsAddress(h, ss[i], Arg(ins[i]), ins[i].world);
    }
  }

  predicate Carries(s: Session, email: string) {
    NeedsAccount(s.state) && s.account.Some? && s.account.value.email == email
  }

  /** Line j opened an account with this address, and the session has been on it up to line i. */
  predicate OnSince(ins: seq<Input>, ss: seq<Session>, j: nat, i: nat, email: string)
    requires j < i < |ss| == |ins| + 1
  {
    && Opens(ss[j], Arg(ins[j]), ins[j].world, email)
    && forall k :: j < k <= i ==> Carries(ss[k], email)
  }

  lemma {:induction false} AddressSince(ins: seq<Input>, ss: seq<Session>, i: nat)
    requires Keeping(ins, ss) && i <= |ins| && NeedsAccount(ss[i].state)
    ensures ss[i].account.Some? && exists j: nat :: j < i && OnSince(ins, ss, j, i, ss[i].account.value.email)
  {
    assert i > 0;
    var s, r, p := ss[i - 1], ss[i], i - 1;
    assert KeepsAddress(s, Arg(ins[p]), ins[p].world, r);
    var email := r.account.value.email;
    if Carries(s, email) {
      AddressSince(ins, ss, p);
      var j: nat :| j < p && OnSince(ins, ss, j, p, email);
      assert OnSince(ins, ss, j, i, email);
    } else {
      assert OnSince(ins, ss, p, i, email);
    }
  }

  lemma {:induction false} SavedSince(ins: seq<Input>, ss: seq<Session>, i: nat, n: nat)
    requires Keeping(ins, ss) && i <= |ins| && n < |ss[i].saves|
    ensures exists j: nat, k: nat :: j < k <= i && OnSince(ins, ss, j, k, ss[i].saves[n].email)
  {
    assert i > 0;
    var s, r, p := ss[i - 1], ss[i], i - 1;
    assert KeepsAddress(s, Arg(ins[p]), ins[p].world, r);
    if n < |s.saves| {
      assert s.saves[n] == r.saves[n];
      SavedSince(ins, ss, p, n);
    } else {
      AddressSince(ins, ss, p);
      assert r.saves[n].email == s.account.value.email;
    }
  }

  /** In every run the address of the account at hand is the one parsed, or that of the record loaded,
      on the line that opened it, and it has not changed since. */
  lemma EveryAddressIsTheOpened(h: Hash, ins: seq<Input>, ss: seq<Session>, i: nat)
    requires IsRun(h, ins, ss) && i <= |ins| && NeedsAccount(ss[i].state)
    ensures ss[i].account.Some? && exists j: nat :: j < i && OnSince(ins, ss, j, i, ss[i].account.value.email)
  {
    RunKeepsAddress(h, ins, ss);
    AddressSince(ins, ss, i);
  }

  /** And so for every record saved, which was of the account at hand when it went out. */
  lemma EverySavedAddressWasOpened(h: Hash, ins: seq<Input>, ss: seq<Session>, i: nat, n: nat)
    requires IsRun(h, ins, ss) && i <= |ins| && n < |ss[i].saves|
    ensures exists j: nat, k: nat :: j < k <= i && OnSince(ins, ss, j, k, ss[i].saves[n].email)
  {
    RunKeepsAddress(h, ins, ss);
    SavedSince(ins, ss, i, n);
  }
}
