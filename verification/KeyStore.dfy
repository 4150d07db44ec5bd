/** First-run key creation: any number of server processes start against one directory, interleave at
  * every file operation, and may fail or crash at any of them. */
module KeyStore {
  import opened Outcomes
  import opened Tokens

  type Bytes = seq<bv8>

  /** PEM encoding and the key thumbprint, as far as this protocol depends on them: a complete file
    * decodes to the key it was written from. Nothing is known about incomplete files. */
  datatype Crypto = Crypto(encode: Key -> Bytes, decode: Bytes -> Option<Key>, thumbprint: Key -> string) {
    ghost predicate Sound() {
      forall k :: decode(encode(k)) == Some(k)
    }

    function Sign(k: Key): SigningKey {
      SigningKey(k, thumbprint(k))
    }
  }

  /** Names in the key directory. Temporary names start with a dot, so none is the published one. */
  datatype FileName = Published | Temp(n: nat)

  /** Names refer to files; a hard link is a second name for the same file. */
  datatype Disk = Disk(names: map<FileName, nat>, data: map<nat, Bytes>)

  function Created(d: Disk, temp: nat, file: nat): Disk {
    Disk(d.names[Temp(temp) := file], d.data[file := []])
  }

  function Wrote(d: Disk, file: nat, content: Bytes): Disk {
    d.(data := d.data[file := content])
  }

  /** `os.link`: publishes only if absent. */
  function LinkedTo(d: Disk, temp: nat): Disk
    requires Temp(temp) in d.names
  {
    if Published in d.names then d else d.(names := d.names[Published := d.names[Temp(temp)]])
  }

  function Unlinked(d: Disk, temp: nat): Disk {
    d.(names := d.names - {Temp(temp)})
  }

  /** The bytes under the published name, if there is such a file. */
  function PublishedBytes(d: Disk): Option<Bytes> {
    if Published in d.names && d.names[Published] in d.data then Some(d.data[d.names[Published]]) else None
  }

  // ---------------------------------------------------------------------------------- one process alone

  class KeyDirectory {
    var disk: Disk

    /** `load_or_create` undisturbed: an existing key is loaded and nothing is written; otherwise the
      * generated key is published, complete, and the temporary name is gone. */
    method LoadOrCreate(crypto: Crypto, generated: Key, temp: nat, file: nat) returns (r: Result<SigningKey>)
      requires Temp(temp) !in disk.names && file !in disk.data
      requires Published in disk.names ==> disk.names[Published] in disk.data
      modifies this
      ensures PublishedBytes(old(disk)).Some? ==>
                && disk == old(disk)
                && var k := crypto.decode(PublishedBytes(old(disk)).value);
                r == if k.Some? then Ok(crypto.Sign(k.value)) else Err(KeyStoreError)
      ensures PublishedBytes(old(disk)).None? ==>
                && r == Ok(crypto.Sign(generated))
                && PublishedBytes(disk) == Some(crypto.encode(generated))
                && disk.names == old(disk.names)[Published := file]
                && disk.data == old(disk.data)[file := crypto.encode(generated)]
    {
      var existing := PublishedBytes(disk);
      if existing.Some? {
        var k := crypto.decode(existing.value);
        return if k.Some? then Ok(crypto.Sign(k.value)) else Err(KeyStoreError);
      }
      var pem := crypto.encode(generated);
      disk := Created(disk, temp, file);
      var written := 0;
      while written < |pem|
        invariant 0 <= written <= |pem|
        invariant disk == Wrote(Created(old(disk), temp, file), file, pem[..written])
      {
        written := written + 1;
        disk := Wrote(disk, file, pem[..written]);
      }
      assert pem[..|pem|] == pem;
      disk := LinkedTo(disk, temp);
      disk := Unlinked(disk, temp);
      assert disk.names == old(disk.names)[Published := file];
      return Ok(crypto.Sign(generated));
    }
  }

  // --------------------------------------------------------------------------------- many processes

  datatype Process =
    | Starting
    | Absent
    | Generated(key: Key)
    | Writing(key: Key, temp: nat, file: nat, written: nat)
    | Synced(key: Key, temp: nat)
    | Lost(temp: nat)
    | CleaningUp(temp: nat, outcome: Option<Key>)
    | Returned(signing: SigningKey)
    | Failed

  datatype Store = Store(disk: Disk, processes: map<nat, Process>)

  /** `fault` marks an operation that raises an operating-system error instead of taking effect. */
  datatype Step =
    | Start(id: nat)
    | Load(id: nat, fault: bool)
    | Generate(id: nat, key: Key)
    | OpenTemp(id: nat, temp: nat, file: nat)
    | Write(id: nat, upTo: nat, fault: bool)
    | Sync(id: nat, fault: bool)
    | Link(id: nat, fault: bool)
    | Reload(id: nat, fault: bool)
    | CleanUp(id: nat, fault: bool)
    | Crash(id: nat)

  predicate Enabled(crypto: Crypto, s: Store, step: Step) {
    if step.Start? then step.id !in s.processes
    else
      step.id in s.processes &&
      var p := s.processes[step.id];
      match step
      case Start(_) => false
      case Load(_, _) => p.Starting?
      case Generate(_, _) => p.Absent?
      case OpenTemp(_, temp, file) => p.Generated? && Temp(temp) !in s.disk.names && file !in s.disk.data
      case Write(_, upTo, _) => p.Writing? && p.written <= upTo <= |crypto.encode(p.key)|
      case Sync(_, _) => p.Writing? && p.written == |crypto.encode(p.key)|
      case Link(_, _) => p.Synced?
      case Reload(_, _) => p.Lost?
      case CleanUp(_, _) => p.CleaningUp?
      case Crash(_) => true
  }

  function Become(s: Store, id: nat, p: Process): Store {
    s.(processes := s.processes[id := p])
  }

  /** What reading the published file gives a process that found it. */
  function LoadedKey(crypto: Crypto, d: Disk): Option<Key> {
    match PublishedBytes(d)
    case Some(bytes) => crypto.decode(bytes)
    case None => None
  }

  function Apply(crypto: Crypto, s: Store, step: Step): Store
    requires Enabled(crypto, s, step)
  {
    match step
    case Start(id) => Become(s, id, Starting)
    case Load(id, fault) =>
      if fault then Become(s, id, Failed)
      else if Published !in s.disk.names then Become(s, id, Absent)
      else (match LoadedKey(crypto, s.disk)
            case Some(k) => Become(s, id, Returned(crypto.Sign(k)))
            case None => Become(s, id, Failed))
    case Generate(id, key) => Become(s, id, Generated(key))
    case OpenTemp(id, temp, file) =>
      Become(s, id, Writing(s.processes[id].key, temp, file, 0)).(disk := Created(s.disk, temp, file))
    case Write(id, upTo, fault) =>
      var p := s.processes[id];
      if fault then Become(s, id, CleaningUp(p.temp, None))
      else Become(s, id, p.(written := upTo)).(disk := Wrote(s.disk, p.file, crypto.encode(p.key)[..upTo]))
    case Sync(id, fault) =>
      var p := s.processes[id];
      Become(s, id, if fault then CleaningUp(p.temp, None) else Synced(p.key, p.temp))
    case Link(id, fault) =>
      var p := s.processes[id];
      if fault || Temp(p.temp) !in s.disk.names then Become(s, id, CleaningUp(p.temp, None))
      else if Published in s.disk.names then Become(s, id, Lost(p.temp))
      else Become(s, id, CleaningUp(p.temp, Some(p.key))).(disk := LinkedTo(s.disk, p.temp))
    case Reload(id, fault) =>
      Become(s, id, CleaningUp(s.processes[id].temp, if fault then None else LoadedKey(crypto, s.disk)))
    case CleanUp(id, fault) =>
      var p := s.processes[id];
      if fault then Become(s, id, Failed)
      else
        var q := if p.outcome.Some? then Returned(crypto.Sign(p.outcome.value)) else Failed;
        Become(s, id, q).(disk := Unlinked(s.disk, p.temp))
    case Crash(id) => s.(processes := s.processes - {id})
  }

  /** No process is running; a key, and leftovers of earlier crashes, may be there already. */
  predicate Initial(s: Store) {
    && s.processes == map[]
    && forall n :: n in s.disk.names ==> s.disk.names[n] in s.disk.data
  }

  function Execute(crypto: Crypto, s: Store, steps: seq<Step>): Option<Store>
    decreases |steps|
  {
    if steps == [] then Some(s)
    else if Enabled(crypto, s, steps[0]) then Execute(crypto, Apply(crypto, s, steps[0]), steps[1..])
    else None
  }

  // --------------------------------------------------------------------------------------- invariant

  /** The temporary name a process still holds. */
  function HeldTemp(p: Process): Option<nat> {
    match p
    case Writing(_, temp, _, _) => Some(temp)
    case Synced(_, temp) => Some(temp)
    case Lost(temp) => Some(temp)
    case CleaningUp(temp, _) => Some(temp)
    case _ => None
  }

  /** The key a process has settled on. */
  function Settled(p: Process): Option<Key> {
    match p
    case CleaningUp(_, outcome) => outcome
    case Returned(signing) => Some(signing.key)
    case _ => None
  }

  /** The file a process writes is its own: it has its own name and no other. */
  ghost predicate FileOk(crypto: Crypto, d: Disk, p: Process) {
    && (HeldTemp(p).Some? ==> Temp(HeldTemp(p).value) in d.names)
    && (p.Writing? ==>
          && d.names[Temp(p.temp)] == p.file && p.file in d.data
          && p.written <= |crypto.encode(p.key)| && d.data[p.file] == crypto.encode(p.key)[..p.written]
          && forall n :: n in d.names && d.names[n] == p.file ==> n == Temp(p.temp))
    && (p.Synced? ==> d.names[Temp(p.temp)] in d.data && d.data[d.names[Temp(p.temp)]] == crypto.encode(p.key))
  }

  ghost predicate SettledOk(crypto: Crypto, d: Disk, p: Process) {
    && (Settled(p).Some? ==> LoadedKey(crypto, d) == Settled(p))
    && (p.Returned? ==> p.signing == crypto.Sign(p.signing.key))
  }

  /** What is published is what was there at first, or the complete encoding of a key. */
  ghost predicate PublishedOk(crypto: Crypto, d: Disk, before: Option<Bytes>) {
    && (Published in d.names ==> d.names[Published] in d.data)
    && (PublishedBytes(d).Some?
        ==> PublishedBytes(d) == before || exists k :: PublishedBytes(d) == Some(crypto.encode(k)))
    && (before.Some? ==> PublishedBytes(d) == before)
  }

  ghost predicate NamesOk(d: Disk) {
    forall n :: n in d.names ==> d.names[n] in d.data
  }

  ghost predicate TempsDistinct(processes: map<nat, Process>) {
    forall i, j :: i in processes && j in processes && i != j && HeldTemp(processes[i]).Some?
      ==> HeldTemp(processes[i]) != HeldTemp(processes[j])
  }

  ghost predicate ProcessesOk(crypto: Crypto, d: Disk, processes: map<nat, Process>) {
    forall id :: id in processes ==> FileOk(crypto, d, processes[id]) && SettledOk(crypto, d, processes[id])
  }

  ghost predicate Inv(crypto: Crypto, s: Store, before: Option<Bytes>) {
    && PublishedOk(crypto, s.disk, before)
    && NamesOk(s.disk)
    && ProcessesOk(crypto, s.disk, s.processes)
    && TempsDistinct(s.processes)
  }

  /** A change of the disk that respects every process and what is published. */
  ghost predicate Respects(d: Disk, d': Disk) {
    Published in d.names && d.names[Published] in d.data ==>
      Published in d'.names && d'.names[Published] == d.names[Published] && PublishedBytes(d') == PublishedBytes(d)
  }

  lemma BecomeKeepsInv(crypto: Crypto, s: Store, id: nat, p: Process, before: Option<Bytes>)
    requires Inv(crypto, s, before)
    requires FileOk(crypto, s.disk, p) && SettledOk(crypto, s.disk, p)
    requires HeldTemp(p).Some? ==> id in s.processes && HeldTemp(s.processes[id]) == HeldTemp(p)
    ensures Inv(crypto, Become(s, id, p), before)
  {
  }

  lemma OpenTempKeepsInv(crypto: Crypto, s: Store, id: nat, temp: nat, file: nat, before: Option<Bytes>)
    requires crypto.Sound() && Inv(crypto, s, before) && Enabled(crypto, s, OpenTemp(id, temp, file))
    ensures Inv(crypto, Apply(crypto, s, OpenTemp(id, temp, file)), before)
    ensures Respects(s.disk, Apply(crypto, s, OpenTemp(id, temp, file)).disk)
  {
    var d' := Created(s.disk, temp, file);
    forall i | i in s.processes && i != id
      ensures FileOk(crypto, d', s.processes[i]) && SettledOk(crypto, d', s.processes[i])
    {
      assert FileOk(crypto, s.disk, s.processes[i]) && SettledOk(crypto, s.disk, s.processes[i]);
    }
  }

  lemma WriteKeepsInv(crypto: Crypto, s: Store, id: nat, upTo: nat, before: Option<Bytes>)
    requires Inv(crypto, s, before) && Enabled(crypto, s, Write(id, upTo, false))
    ensures Inv(crypto, Apply(crypto, s, Write(id, upTo, false)), before)
    ensures Respects(s.disk, Apply(crypto, s, Write(id, upTo, false)).disk)
  {
    var p := s.processes[id];
    var d' := Wrote(s.disk, p.file, crypto.encode(p.key)[..upTo]);
    assert FileOk(crypto, s.disk, p);
    forall i | i in s.processes && i != id
      ensures FileOk(crypto, d', s.processes[i]) && SettledOk(crypto, d', s.processes[i])
    {
      assert FileOk(crypto, s.disk, s.processes[i]) && SettledOk(crypto, s.disk, s.processes[i]);
      assert HeldTemp(p) != HeldTemp(s.processes[i]);
    }
  }

  lemma LinkKeepsInv(crypto: Crypto, s: Store, id: nat, before: Option<Bytes>)
    requires crypto.Sound() && Inv(crypto, s, before) && Enabled(crypto, s, Link(id, false))
    requires Published !in s.disk.names
    ensures Inv(crypto, Apply(crypto, s, Link(id, false)), before)
  {
    var p := s.processes[id];
    assert FileOk(crypto, s.disk, p);
    var d' := LinkedTo(s.disk, p.temp);
    assert PublishedBytes(d') == Some(crypto.encode(p.key));
    forall i | i in s.processes && i != id
      ensures FileOk(crypto, d', s.processes[i]) && SettledOk(crypto, d', s.processes[i])
    {
      assert FileOk(crypto, s.disk, s.processes[i]) && SettledOk(crypto, s.disk, s.processes[i]);
      assert HeldTemp(p) != HeldTemp(s.processes[i]);
    }
  }

  lemma CleanUpKeepsInv(crypto: Crypto, s: Store, id: nat, before: Option<Bytes>)
    requires Inv(crypto, s, before) && Enabled(crypto, s, CleanUp(id, false))
    ensures Inv(crypto, Apply(crypto, s, CleanUp(id, false)), before)
    ensures Respects(s.disk, Apply(crypto, s, CleanUp(id, false)).disk)
  {
    var p := s.processes[id];
    var d' := Unlinked(s.disk, p.temp);
    assert PublishedBytes(d') == PublishedBytes(s.disk);
    assert SettledOk(crypto, s.disk, p);
    forall i | i in s.processes && i != id
      ensures FileOk(crypto, d', s.processes[i]) && SettledOk(crypto, d', s.processes[i])
    {
      assert FileOk(crypto, s.disk, s.processes[i]) && SettledOk(crypto, s.disk, s.processes[i]);
      assert HeldTemp(p) != HeldTemp(s.processes[i]);
    }
  }

  lemma StepKeepsInv(crypto: Crypto, s: Store, step: Step, before: Option<Bytes>)
    requires crypto.Sound() && Inv(crypto, s, before) && Enabled(crypto, s, step)
    ensures Inv(crypto, Apply(crypto, s, step), before)
    ensures Respects(s.disk, Apply(crypto, s, step).disk)
  {
    var id := step.id;
    if id in s.processes {
      assert FileOk(crypto, s.disk, s.processes[id]) && SettledOk(crypto, s.disk, s.processes[id]);
    }
    match step
    case OpenTemp(_, temp, file) => OpenTempKeepsInv(crypto, s, id, temp, file, before);
    case Write(_, upTo, fault) =>
      if fault { BecomeKeepsInv(crypto, s, id, Apply(crypto, s, step).processes[id], before); }
      else { WriteKeepsInv(crypto, s, id, upTo, before); }
    case Link(_, fault) =>
      if !fault && Published !in s.disk.names { LinkKeepsInv(crypto, s, id, before); }
      else { BecomeKeepsInv(crypto, s, id, Apply(crypto, s, step).processes[id], before); }
    case CleanUp(_, fault) =>
      if fault { BecomeKeepsInv(crypto, s, id, Failed, before); }
      else { CleanUpKeepsInv(crypto, s, id, before); }
    case Crash(_) =>
    case Sync(_, fault) =>
      var p := s.processes[id];
      assert !fault ==> crypto.encode(p.key)[..|crypto.encode(p.key)|] == crypto.encode(p.key);
      BecomeKeepsInv(crypto, s, id, Apply(crypto, s, step).processes[id], before);
    case _ => BecomeKeepsInv(crypto, s, id, Apply(crypto, s, step).processes[id], before);
  }

  lemma {:induction false} RunKeepsInv(crypto: Crypto, s: Store, steps: seq<Step>, before: Option<Bytes>)
    requires crypto.Sound() && Inv(crypto, s, before) && Execute(crypto, s, steps).Some?
    ensures Inv(crypto, Execute(crypto, s, steps).value, before)
    ensures Respects(s.disk, Execute(crypto, s, steps).value.disk)
    decreases |steps|
  {
    if steps != [] {
      StepKeepsInv(crypto, s, steps[0], before);
      RunKeepsInv(crypto, Apply(crypto, s, steps[0]), steps[1..], before);
    }
  }

  /** A run from a directory nobody is using to a later state. */
  ghost predicate Runs(crypto: Crypto, start: Store, steps: seq<Step>, s: Store) {
    Initial(start) && Execute(crypto, start, steps) == Some(s)
  }

  // ------------------------------------------------------------------------------------------ theorems

  /** All processes that return, at any two moments of any run, hold the same key and key identifier. */
  lemma ProcessesAgree(crypto: Crypto, start: Store, before: seq<Step>, s: Store, between: seq<Step>, s': Store, i: nat,
                       j: nat)
    requires crypto.Sound() && Runs(crypto, start, before, s) && Execute(crypto, s, between) == Some(s')
    requires i in s.processes && s.processes[i].Returned? && j in s'.processes && s'.processes[j].Returned?
    ensures s.processes[i].signing == s'.processes[j].signing
    ensures LoadedKey(crypto, s'.disk) == Some(s.processes[i].signing.key)
  {
    var origin := PublishedBytes(start.disk);
    RunKeepsInv(crypto, start, before, origin);
    RunKeepsInv(crypto, s, between, origin);
    assert SettledOk(crypto, s.disk, s.processes[i]) && SettledOk(crypto, s'.disk, s'.processes[j]);
  }

  /** Once a file is published it is never replaced and its content never changes. */
  lemma PublishedFileIsNeverReplaced(crypto: Crypto, start: Store, before: seq<Step>, s: Store, between: seq<Step>,
                                     s': Store)
    requires crypto.Sound() && Runs(crypto, start, before, s) && Execute(crypto, s, between) == Some(s')
    requires Published in s.disk.names
    ensures Published in s'.disk.names && s'.disk.names[Published] == s.disk.names[Published]
    ensures PublishedBytes(s.disk).Some? && PublishedBytes(s'.disk) == PublishedBytes(s.disk)
  {
    RunKeepsInv(crypto, start, before, PublishedBytes(start.disk));
    RunKeepsInv(crypto, s, between, PublishedBytes(start.disk));
  }

  /** What any process can ever load is the file that was there before the first start, or the complete
    * encoding of one key: never a partly written one. On a first run it always decodes. */
  lemma OnlyCompleteKeysAreLoaded(crypto: Crypto, start: Store, steps: seq<Step>, s: Store)
    requires crypto.Sound() && Runs(crypto, start, steps, s) && Published in s.disk.names
    ensures PublishedBytes(s.disk).Some?
    ensures PublishedBytes(s.disk) == PublishedBytes(start.disk)
            || exists k :: PublishedBytes(s.disk) == Some(crypto.encode(k))
    ensures Published !in start.disk.names ==> LoadedKey(crypto, s.disk).Some?
  {
    RunKeepsInv(crypto, start, steps, PublishedBytes(start.disk));
  }
}
