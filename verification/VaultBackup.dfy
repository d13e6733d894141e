/**
  * The backup: what creation shows is what revealing shows later, as long as the account is
  * there and active.
  */
module VaultBackup {
  import opened Wrappers
  import opened VaultTypes
  import opened VaultStorage
  import opened SessionRules
  import opened Manager
  import opened PlainWallet
  import opened VaultInvariant
  import opened VaultRefinement
  import opened VaultRuns
  import Ascii

  /** The text that stands for a secret: its words, its key, or its extended public key. */
  predicate Represents(text: string, secret: Secret) {
    match secret
    case Mnemonic(words, _) => text == words
    case PrivateKey(hex) => text == hex
    case WatchOnly(xpub) => text == xpub
  }

  /**
    * On any sound vault, revealing answers the active account's words, key or extended public
    * key exactly with the current password and a readable secret.
    */
  lemma RevealExactly(w: World, password: string, draws: Draws)
    requires Inv(w) && Fresh(w, draws)
    ensures var answer := HandleMessage(w, Reveal(password), draws).1;
            if w.blob.Absent? then answer == Failed(NoVault)
            else
              w.blob.V2? && w.blob.file.accounts != []
              && var secret := SecretOf(ActiveAccount(w.blob.file));
                 if password == PasswordOf(w.blob.file) && secret.WellFormed()
                 then answer.Text? && Represents(answer.text, secret)
                 else answer == Failed(WrongPassword)
  {
    hide Inv, Secret.WellFormed, SecretOf, Fresh, Decrypt, DoReveal, PasswordOf;
    RefineMessage(w, Reveal(password), draws);
    AbsNonEmpty(w);
    SlotShape(w);
    if w.blob.V2? {
      ActiveAgrees(w.blob.file);
    }
  }

  /** What the creation or addition of a generated account shows, and that an import shows nothing. */
  lemma CreationShows(w: World, op: Op, draws: Draws)
    requires Inv(w) && Fresh(w, draws) && Sensible(op) && (op.Create? || op.AddAccount?)
    ensures var answer := HandleMessage(w, op, draws).1;
            if answer.Failed? then true
            else if op.given.generated then answer.Created? && Represents(answer.backup, op.given.secret)
            else answer.StatusIs?
  {
    hide Inv, Fresh, Handle, StatusOf, Active, Secret.WellFormed, Ascii.Trim;
    RefineMessage(w, op, draws);
    AbsNonEmpty(w);
  }

  // ---------------------------------------------------------------- over a run

  /** Every account with this id has this secret. */
  predicate Keeps(p: Plain, id: string, secret: Secret) {
    p.wallet.Some? ==> forall a :: a in p.wallet.value.accounts && a.id == id ==> a.secret == secret
  }

  lemma KeptByHandler(p: Plain, op: Op, drawn: string, id: string, secret: Secret)
    requires NonEmptyWallet(p) && Keeps(p, id, secret) && drawn != id
    ensures Keeps(PlainHandle(p, op, drawn).0, id, secret)
  {
    if p.wallet.None? {
      StaysWithout(p, op, drawn);
    } else {
      PlainKeeps(p, op, drawn);
      var after := PlainHandle(p, op, drawn).0;
      hide PlainHandle;
      if after.wallet.Some? {
        forall a | a in after.wallet.value.accounts && a.id == id ensures a.secret == secret {
          var b :| b in p.wallet.value.accounts && SameSecret(b, a);
        }
      }
    }
  }

  /** Without a wallet, only creation makes an account, and it carries the drawn id. */
  lemma StaysWithout(p: Plain, op: Op, drawn: string)
    requires p.wallet.None?
    ensures var after := PlainHandle(p, op, drawn).0;
            after.wallet.Some? ==> forall a :: a in after.wallet.value.accounts ==> a.id == drawn
  {
    hide StatusOf, PlainDone, Active, Ascii.Trim, Secret.WellFormed;
  }

  lemma KeptByEvent(p: Plain, e: Event, id: string, secret: Secret)
    requires NonEmptyWallet(p) && Keeps(p, id, secret) && (e.Message? ==> e.draws.id != id)
    ensures Keeps(PlainEvent(p, e).0, id, secret)
  {
    hide PlainHandle;
    if e.Message? {
      assert Woken(p).wallet == p.wallet;
      KeptByHandler(Woken(p), e.op, e.draws.id, id, secret);
    }
  }

  lemma {:induction false} KeptByRun(p: Plain, events: seq<Event>, id: string, secret: Secret)
    requires Keeps(p, id, secret) && PlainRun(p, events).Some?
    requires forall k :: 0 <= k < |events| && events[k].Message? ==> events[k].draws.id != id
    ensures Keeps(PlainRun(p, events).value.0, id, secret)
  {
    hide PlainEvent, Keeps, NonEmptyWallet;
    if events != [] {
      var init := events[..|events| - 1];
      assert forall k :: 0 <= k < |init| ==> init[k] == events[k];
      KeptByRun(p, init, id, secret);
      KeptByEvent(PlainRun(p, init).value.0, events[|events| - 1], id, secret);
    }
  }

  /** The new account has the given secret, and no other account has its id. */
  lemma CreatedKeeps(w: World, op: Op, draws: Draws)
    requires Inv(w) && Fresh(w, draws) && Sensible(op) && (op.Create? || op.AddAccount?)
    requires HandleMessage(w, op, draws).1.Created?
    ensures Keeps(Abs(HandleMessage(w, op, draws).0), draws.id, op.given.secret)
  {
    hide Inv, Handle, StatusOf, Active, Secret.WellFormed, Ascii.Trim, Abs, Fresh;
    RefineMessage(w, op, draws);
    AbsNonEmpty(w);
    if w.blob.V2? {
      FreshUnknown(w, draws);
      HasIdEntries(w.blob.file.accounts, draws.id);
    }
    AbsWallet(w);
  }

  lemma AbsWallet(w: World)
    ensures Abs(w).wallet == if w.blob.V2? then Some(WalletOf(w.blob.file)) else None
  {
  }

  /**
    * The backup theorem. What the creation of a generated account showed is what revealing
    * answers after any run of other events, whenever that account is active and the password
    * is the current one.
    */
  lemma ShownIsRevealed(w: World, op: Op, draws: Draws, events: seq<Event>, password: string, later: Draws)
    requires Inv(w) && Fresh(w, draws) && Sensible(op) && (op.Create? || op.AddAccount?)
    requires HandleMessage(w, op, draws).1.Created? && op.given.secret.WellFormed()
    requires UsableRun(HandleMessage(w, op, draws).0, events)
    requires forall k :: 0 <= k < |events| && events[k].Message? ==> events[k].draws.id != draws.id
    requires var end := Run(HandleMessage(w, op, draws).0, events).0;
             Fresh(end, later) && end.blob.V2? && end.blob.file.activeId == draws.id && PasswordOf(end.blob.file) == password
    ensures HandleMessage(Run(HandleMessage(w, op, draws).0, events).0, Reveal(password), later).1
            == Text(HandleMessage(w, op, draws).1.backup)
  {
    hide Inv, HandleMessage, UsableRun, Run, PlainRun, Fresh, Sensible, Abs, PasswordOf, SecretOf, Secret.WellFormed, Keeps;
    var made := HandleMessage(w, op, draws).0;
    var end := Run(made, events).0;
    MessageKeeps(w, op, draws);
    RunRefines(made, events);
    CreationShows(w, op, draws);
    CreatedKeeps(w, op, draws);
    KeptByRun(Abs(made), events, draws.id, op.given.secret);
    RevealExactly(end, password, later);
    SessionAgreesWithFile(end);
    ActiveKept(end, draws.id, op.given.secret);
    SameText(HandleMessage(end, Reveal(password), later).1.text, HandleMessage(w, op, draws).1.backup, op.given.secret);
  }

  lemma MessageKeeps(w: World, op: Op, draws: Draws)
    requires Inv(w) && Fresh(w, draws) && Sensible(op)
    ensures Inv(HandleMessage(w, op, draws).0)
  {
    hide Inv, Fresh, Sensible, HandleMessage, Abs, PlainMessage;
    RefineMessage(w, op, draws);
  }

  lemma SameText(a: string, b: string, secret: Secret)
    requires Represents(a, secret) && Represents(b, secret)
    ensures a == b
  {
  }

  lemma ActiveKept(w: World, id: string, secret: Secret)
    requires w.blob.V2? && HasId(w.blob.file.accounts, id) && w.blob.file.activeId == id && w.blob.file.accounts != []
    requires Keeps(Abs(w), id, secret)
    ensures SecretOf(ActiveAccount(w.blob.file)) == secret
  {
    hide SecretOf;
    var a := ActiveAccount(w.blob.file);
    var accounts := w.blob.file.accounts;
    var k :| 0 <= k < |accounts| && accounts[k] == a;
    assert PlainsOf(accounts)[k] == PlainOf(a) && PlainOf(a) in PlainsOf(accounts);
  }
}
