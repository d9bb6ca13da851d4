/** Which storage a process keeps its credential in, and what the next process
    will read: the keyring, or a file once the file exists or the keyring fails. */
module CredentialStore {
  import opened Sequences
  import K = Keyring

  /** What outlives a process. The file may be missing, or hold no credential. */
  datatype Disk = Disk(keyring: K.Passwords, file: Option<Option<string>>)

  datatype Backend = InKeyring | InFile

  /** The storage a process settled on; `last` is the credential it last read
      or stored. */
  datatype Session<+C> = Session(backend: Backend, fallback: bool, last: Option<C>)

  /** How a write went; a failed one may leave anything behind. */
  datatype KeyringWrite = Written | Broken(left: K.Passwords)
  datatype FileWrite = Saved | Unsaved(left: Option<Option<string>>)

  /** The environment a program runs in: how credentials are sealed, the piece
      size of the keyring, and whether the user asks for file storage. */
  datatype Setting<!C> = Setting(seal: C -> string, unseal: string -> Option<C>, step: nat, forceFile: bool)

  /** Sealing can be undone. */
  ghost predicate Sound<C(!new)>(s: Setting<C>) {
    s.step > 0 && forall c :: s.unseal(s.seal(c)) == Some(c)
  }

  /** A stored credential can be read back from where a fresh process looks: any
      from the file, and from the keyring one whose sealed text is storable. */
  predicate Retrievable<C>(s: Setting<C>, disk: Disk, c: C)
    requires s.step > 0
  {
    s.forceFile || disk.file.Some? || K.Storable(s.seal(c), s.step)
  }

  /** A fresh process reads the durable credential. */
  predicate ReadsDurable<C(==)>(s: Setting<C>, disk: Disk, durable: Option<C>)
    requires s.step > 0
  {
    (durable.Some? ==> Retrievable(s, disk, durable.value)) ==> Opened(s, disk, {}).last == durable
  }

  function ReadFile<C>(s: Setting<C>, file: Option<Option<string>>): Option<C> {
    match file
    case Some(Some(text)) => s.unseal(text)
    case _ => None
  }

  /** What a fresh process chooses and reads. */
  function Opened<C>(s: Setting<C>, disk: Disk, broken: set<nat>): Session<C> {
    if s.forceFile || disk.file.Some? then Session(InFile, false, ReadFile(s, disk.file))
    else match K.ReadFrom(disk.keyring, broken, 0)
      case Value(text) => Session(InKeyring, true, s.unseal(text))
      case Missing => Session(InKeyring, true, None)
      case Failed => Session(InFile, false, ReadFile(s, disk.file))
  }

  /** The file is used if the user asks for it, if it exists, or if a read of the
      keyring comes to an entry that cannot be read; otherwise the keyring, with
      the file to fall back on. */
  lemma ChoosesStorage<C>(s: Setting<C>, disk: Disk, broken: set<nat>)
    ensures Opened(s, disk, broken).backend.InFile? <==>
            s.forceFile || disk.file.Some? || exists k :: k in broken && K.Passes(disk.keyring, 0, k)
    ensures Opened(s, disk, broken).fallback <==> Opened(s, disk, broken).backend.InKeyring?
    ensures Opened(s, disk, broken).backend.InFile? && disk.file.Some? && disk.file.value.Some? ==>
              Opened(s, disk, broken).last == s.unseal(disk.file.value.value)
    ensures disk.file == None && (disk.keyring == map[] || 0 in broken) ==> Opened(s, disk, broken).last == None
  {
    K.FailsExactly(disk.keyring, broken, 0);
  }

  /** Storing a credential: the disk, the session, and whether either storage
      took it. */
  function Stored<C>(s: Setting<C>, disk: Disk, session: Session<C>, c: C, kw: KeyringWrite, fw: FileWrite)
    : (Disk, Session<C>, bool)
    requires s.step > 0
  {
    var text := s.seal(c);
    var saved := if fw.Saved? then Some(Some(text)) else fw.left;
    match session.backend
    case InFile => (disk.(file := saved), session.(last := Some(c)), fw.Saved?)
    case InKeyring =>
      if kw.Written? then
        (disk.(keyring := K.Overwritten(disk.keyring, K.Chunks(text, s.step))), session.(last := Some(c)), true)
      else if session.fallback then
        (Disk(kw.left, saved), Session(InFile, false, Some(c)), fw.Saved?)
      else
        (disk.(keyring := kw.left), session.(last := Some(c)), false)
  }

  /** Clearing: in the file an empty value is saved; in the keyring the known
      entries go, so that `left` remains, without the first entry on success. */
  function Cleared<C>(disk: Disk, session: Session<C>, ok: bool, left: K.Passwords, fw: FileWrite)
    : (Disk, Session<C>, bool)
  {
    match session.backend
    case InFile =>
      if fw.Saved? then (disk.(file := Some(None)), session.(last := None), true)
      else (disk.(file := fw.left), session, false)
    case InKeyring => (disk.(keyring := left), if ok then session.(last := None) else session, ok)
  }

  // ---------- the object ----------

  class Auth<C(!new)> {
    const setting: Setting<C>
    var disk: Disk
    var storage: Option<Session<C>>

    /** Only a keyring session has a fallback left. */
    predicate Valid()
      reads this
    {
      storage.Some? && storage.value.backend.InFile? ==> !storage.value.fallback
    }

    constructor (setting: Setting<C>, disk: Disk)
      ensures Valid()
      ensures this.setting == setting && this.disk == disk && storage == None
    {
      this.setting := setting;
      this.disk := disk;
      storage := None;
    }

    /** Opens the storage on first use. */
    method WithStorage(broken: set<nat>)
      requires Valid()
      modifies this
      ensures Valid()
      ensures disk == old(disk)
      ensures storage == Some(if old(storage).Some? then old(storage).value else Opened(setting, disk, broken))
    {
      if storage.Some? {
        return;
      }
      var native := K.Failed;
      if !setting.forceFile && disk.file.None? {
        native := K.ReadFrom(disk.keyring, broken, 0);
      }
      match native
      case Value(text) => storage := Some(Session(InKeyring, true, setting.unseal(text)));
      case Missing => storage := Some(Session(InKeyring, true, None));
      case Failed => storage := Some(Session(InFile, false, ReadFile(setting, disk.file)));
    }

    /** The credential of the session, which is opened if need be. */
    method GetCurrentCredential(broken: set<nat>) returns (c: Option<C>)
      requires Valid()
      modifies this
      ensures Valid() && disk == old(disk) && storage.Some? && c == storage.value.last
      ensures storage == Some(if old(storage).Some? then old(storage).value else Opened(setting, disk, broken))
    {
      WithStorage(broken);
      c := storage.value.last;
    }

    method StoreCredentials(c: C, kw: KeyringWrite, fw: FileWrite)
      requires storage.Some? && setting.step > 0 && Valid()
      modifies this
      ensures storage.Some? && Valid()
      ensures var (d, s, _) := Stored(setting, old(disk), old(storage).value, c, kw, fw);
              disk == d && storage.value == s
    {
      var s := storage.value;
      var failed := StoreIn(s.backend, c, kw, fw);
      if failed && s.fallback {
        s := s.(backend := InFile, fallback := false);
        var _ := StoreIn(InFile, c, kw, fw);
      }
      storage := Some(s.(last := Some(c)));
    }

    /** Forgets the credential, if the storage in use could be cleared. */
    method ClearCredentials(ok: bool, left: K.Passwords, fw: FileWrite) returns (done: bool)
      requires storage.Some? && Valid()
      modifies this
      ensures storage.Some? && Valid()
      ensures (disk, storage.value, done) == Cleared(old(disk), old(storage).value, ok, left, fw)
    {
      if storage.value.backend.InFile? {
        done := fw.Saved?;
        disk := disk.(file := if done then Some(None) else fw.left);
      } else {
        done := ok;
        disk := disk.(keyring := left);
      }
      if done {
        storage := Some(storage.value.(last := None));
      }
    }

    /** One attempt at one storage. */
    method StoreIn(backend: Backend, c: C, kw: KeyringWrite, fw: FileWrite) returns (failed: bool)
      requires setting.step > 0
      modifies this`disk
      ensures failed == if backend.InFile? then !fw.Saved? else !kw.Written?
      ensures var chunks := K.Chunks(setting.seal(c), setting.step);
              disk == if backend.InFile?
                      then old(disk).(file := if failed then fw.left else Some(Some(setting.seal(c))))
                      else old(disk).(keyring := if failed then kw.left else K.Overwritten(old(disk).keyring, chunks))
    {
      match backend
      case InKeyring =>
        failed := kw.Broken?;
        var chunks := K.Chunks(setting.seal(c), setting.step);
        disk := disk.(keyring := if failed then kw.left else K.Overwritten(disk.keyring, chunks));
      case InFile =>
        failed := fw.Unsaved?;
        disk := disk.(file := if failed then fw.left else Some(Some(setting.seal(c))));
    }
  }

  // ---------- every run, across processes ----------

  datatype Event<C> =
    | Open(broken: set<nat>)
    | Store(c: C, kw: KeyringWrite, fw: FileWrite)
    | Clear(ok: bool, left: K.Passwords, fw: FileWrite)
    | Restart

  /** `durable` records the outcome of the last store or clear, if one of the
      two storages took it: the credential, or that there is none. */
  datatype World<C> = World(disk: Disk, session: Option<Session<C>>, durable: Option<Option<C>>)

  predicate Enabled<C>(w: World<C>, e: Event<C>) {
    match e
    case Open(_) => w.session.None?
    case Restart => true
    case Store(_, _, _) => w.session.Some?
    case Clear(ok, left, _) => w.session.Some? && (ok ==> 0 !in left)
  }

  function Next<C>(s: Setting<C>, w: World<C>, e: Event<C>): World<C>
    requires s.step > 0 && Enabled(w, e)
  {
    match e
    case Open(broken) => w.(session := Some(Opened(s, w.disk, broken)))
    case Restart => w.(session := None)
    case Store(c, kw, fw) =>
      var (disk, session, ok) := Stored(s, w.disk, w.session.value, c, kw, fw);
      World(disk, Some(session), if ok then Some(Some(c)) else None)
    case Clear(ok, left, fw) =>
      var (disk, session, done) := Cleared(w.disk, w.session.value, ok, left, fw);
      World(disk, Some(session), if done then Some(None) else None)
  }

  predicate Runs<C>(s: Setting<C>, w: World<C>, events: seq<Event<C>>)
    requires s.step > 0
    decreases |events|
  {
    events == [] || (Enabled(w, events[0]) && Runs(s, Next(s, w, events[0]), events[1..]))
  }

  function After<C>(s: Setting<C>, w: World<C>, events: seq<Event<C>>): World<C>
    requires s.step > 0 && Runs(s, w, events)
    decreases |events|
  {
    if events == [] then w else After(s, Next(s, w, events[0]), events[1..])
  }

  /** A process that uses the keyring has its fallback left, and there is no
      file; the durable credential is what a fresh process reads. */
  ghost predicate Inv<C(!new)>(s: Setting<C>, w: World<C>)
    requires s.step > 0
  {
    && (w.session.Some? && w.session.value.backend.InKeyring? ==>
         w.session.value.fallback && !s.forceFile && w.disk.file.None?)
    && (w.session.Some? && w.session.value.backend.InFile? ==> !w.session.value.fallback)
    && (w.durable.Some? ==> ReadsDurable(s, w.disk, w.durable.value))
  }

  lemma StoreIsDurable<C(!new)>(s: Setting<C>, w: World<C>, c: C, kw: KeyringWrite, fw: FileWrite)
    requires Sound(s) && Inv(s, w) && w.session.Some?
    ensures Inv(s, Next(s, w, Store(c, kw, fw)))
  {
    if w.session.value.backend.InKeyring? && kw.Written? && K.Storable(s.seal(c), s.step) {
      K.StoreThenRead(w.disk.keyring, s.seal(c), s.step);
    }
  }

  lemma {:induction false} RunKeeps<C(!new)>(s: Setting<C>, w: World<C>, events: seq<Event<C>>)
    requires Sound(s) && Inv(s, w) && Runs(s, w, events)
    ensures Inv(s, After(s, w, events))
    decreases |events|
  {
    if events != [] {
      if events[0].Store? {
        StoreIsDurable(s, w, events[0].c, events[0].kw, events[0].fw);
      }
      RunKeeps(s, Next(s, w, events[0]), events[1..]);
    }
  }

  /** Whatever was stored before and whatever failed in between: when the last
      store succeeded somewhere, every later process that can read the keyring
      reads that credential, if it is retrievable; after a successful clear it
      reads none. */
  lemma FreshProcessReads<C(!new)>(s: Setting<C>, disk: Disk, events: seq<Event<C>>)
    requires Sound(s) && Runs(s, World(disk, None, None), events)
    ensures var w := After(s, World(disk, None, None), events);
            w.durable.Some? ==> ReadsDurable(s, w.disk, w.durable.value)
  {
    RunKeeps(s, World(disk, None, None), events);
  }

  /** A process leaves the keyring at most once and never goes back to it. */
  lemma {:induction false} FallsBackOnce<C(!new)>(s: Setting<C>, w: World<C>, events: seq<Event<C>>)
    requires s.step > 0 && Runs(s, w, events) && w.session.Some? && w.session.value.backend.InFile?
    requires forall i :: 0 <= i < |events| ==> !events[i].Restart?
    ensures After(s, w, events).session.Some? && After(s, w, events).session.value.backend.InFile?
    decreases |events|
  {
    if events != [] {
      FallsBackOnce(s, Next(s, w, events[0]), events[1..]);
    }
  }

  /** Whether a clear succeeds: the storage in use decides. */
  predicate Clears<C>(w: World<C>, ok: bool, fw: FileWrite) {
    w.session.Some? && if w.session.value.backend.InFile? then fw.Saved? else ok
  }

  /** What a process believes its credential to be: what it last stored, whether
      or not a storage took it; nothing, after a clear that succeeded; and before
      any of these, what it read when it opened the storage. */
  function BelievedAfter<C>(s: Setting<C>, w: World<C>, believed: Option<C>, e: Event<C>): Option<C>
    requires s.step > 0
  {
    match e
    case Open(broken) => Opened(s, w.disk, broken).last
    case Store(c, _, _) => Some(c)
    case Clear(ok, _, fw) => if Clears(w, ok, fw) then None else believed
    case Restart => None
  }

  function Believed<C>(s: Setting<C>, w: World<C>, believed: Option<C>, events: seq<Event<C>>): Option<C>
    requires s.step > 0 && Runs(s, w, events)
    decreases |events|
  {
    if events == [] then believed
    else Believed(s, Next(s, w, events[0]), BelievedAfter(s, w, believed, events[0]), events[1..])
  }

  /** In every run, an open session gives out what the process believes. */
  lemma {:induction false} SessionBelieves<C(!new)>(s: Setting<C>, w: World<C>, believed: Option<C>,
      events: seq<Event<C>>)
    requires s.step > 0 && Runs(s, w, events)
    requires w.session.Some? ==> w.session.value.last == believed
    ensures After(s, w, events).session.Some? ==>
              After(s, w, events).session.value.last == Believed(s, w, believed, events)
    decreases |events|
  {
    if events != [] {
      SessionBelieves(s, Next(s, w, events[0]), BelievedAfter(s, w, believed, events[0]), events[1..]);
    }
  }

  /** From the start of a machine: the credential a session gives out. */
  lemma CurrentCredential<C(!new)>(s: Setting<C>, disk: Disk, events: seq<Event<C>>)
    requires s.step > 0 && Runs(s, World(disk, None, None), events)
    ensures var start: World<C> := World(disk, None, None);
            After(s, start, events).session.Some? ==>
              After(s, start, events).session.value.last == Believed(s, start, None, events)
  {
    SessionBelieves(s, World(disk, None, None), None, events);
  }

  /** A store succeeds exactly if the storage in use takes the credential, or, for
      the keyring, the file does instead; and a process whose keyring failed is on
      the file from then on. */
  lemma StoreSucceeds<C(!new)>(s: Setting<C>, w: World<C>, c: C, kw: KeyringWrite, fw: FileWrite)
    requires s.step > 0 && Inv(s, w) && w.session.Some?
    ensures var w', inKeyring := Next(s, w, Store(c, kw, fw)), w.session.value.backend.InKeyring?;
            (w'.durable == Some(Some(c)) <==>
             (inKeyring && kw.Written?) || ((!inKeyring || kw.Broken?) && fw.Saved?)) &&
            (w'.durable != Some(Some(c)) ==> w'.durable == None) &&
            w'.session.Some? && (w'.session.value.backend.InKeyring? <==> inKeyring && kw.Written?)
  {
  }

  /** The condition on sealed texts is exact: from an empty machine, a credential
      stored without error is read back after a restart if and only if its sealed
      text is storable; otherwise nobody reads anything. */
  lemma SurvivesRestartExactly<C(!new)>(s: Setting<C>, c: C)
    requires s.step > 0 && !s.forceFile && s.unseal(s.seal(c)) == Some(c)
    ensures var events := [Open({}), Store(c, Written, Saved), Restart, Open({})];
            var start := World(Disk(map[], None), None, None);
            Runs(s, start, events) && After(s, start, events).durable == Some(Some(c)) &&
            After(s, start, events).session.Some? &&
            After(s, start, events).session.value.last == if K.Storable(s.seal(c), s.step) then Some(c) else None
  {
    K.StoreThenReadExactly(map[], s.seal(c), s.step);
    var start := World(Disk(map[], None), None, None);
    var events := [Open({}), Store(c, Written, Saved), Restart, Open({})];
    assert events[1..] == [Store(c, Written, Saved), Restart, Open({})];
    assert events[1..][1..] == [Restart, Open({})];
    assert [Restart, Open({})][1..] == [Event<C>.Open({})] && [Event<C>.Open({})][1..] == [];
    var w1 := Next(s, start, Event.Open({}));
    var w2 := Next(s, w1, Store(c, Written, Saved));
    var w3 := Next(s, w2, Restart);
    var w4 := Next(s, w3, Event.Open({}));
    assert Runs(s, w4, []) && Runs(s, w3, [Event<C>.Open({})]) && Runs(s, w2, [Restart, Open({})]);
    assert After(s, w3, [Event<C>.Open({})]) == w4;
    assert After(s, w2, [Restart, Open({})]) == w4;
  }
}
