/**
 What holds over every run of boots and operator edits: whose key the production gate accepts,
 whether an existing at-rest key survives, and whether the judged key is the one in use.
 */
module KeyProvenance {
  import opened Text
  import opened KeyStore

  // ---------------------------------------------------------------------------------------
  // Runs
  // ---------------------------------------------------------------------------------------

  datatype Edit = PlaceKey(text: string) | RemoveKey | PlaceMarker | RemoveMarker | PlaceDirectory

  datatype Event = Start(input: BootInput) | EditJwt(edit: Edit) | EditEnc(edit: Edit)

  function AfterEdit(slot: Slot, edit: Edit): Slot {
    match edit
    case PlaceKey(text) => slot.(file := Some(Secret(text, Operator)))
    case RemoveKey => slot.(file := None)
    case PlaceMarker => slot.(marker := RegularFile)
    case RemoveMarker => slot.(marker := NoMarker)
    case PlaceDirectory => slot.(marker := Directory)
  }

  /** An operator puts the marker beside no key or beside a key they provided. */
  predicate IsHonest(slot: Slot, edit: Edit) {
    edit.PlaceMarker? && !IsBlank(slot) ==> slot.file.value.origin.Operator?
  }

  /** A file that cannot be read cannot be written either. */
  predicate IsCoherent(i: BootInput) {
    && (!i.jwtReadable ==> i.jwtWrite.Refused?)
    && (!i.encReadable ==> i.encWrite.Refused? && i.cipherWrite.Refused?)
  }

  ghost function Next(valid: string -> bool, w: World, e: Event): World {
    match e
    case Start(i) => Boot(valid, w, i).0
    case EditJwt(edit) => w.(jwt := AfterEdit(w.jwt, edit))
    case EditEnc(edit) => w.(enc := AfterEdit(w.enc, edit))
  }

  predicate IsPossible(w: World, e: Event) {
    match e
    case Start(i) => IsCoherent(i)
    case EditJwt(edit) => IsHonest(w.jwt, edit)
    case EditEnc(edit) => IsHonest(w.enc, edit)
  }

  ghost function Run(valid: string -> bool, w: World, events: seq<Event>): World
    decreases |events|
  {
    if events == [] then w else Run(valid, Next(valid, w, events[0]), events[1..])
  }

  ghost predicate IsRun(valid: string -> bool, w: World, events: seq<Event>)
    decreases |events|
  {
    events == [] || (IsPossible(w, events[0]) && IsRun(valid, Next(valid, w, events[0]), events[1..]))
  }

  /** The one fact about the Fernet key format that is needed: nothing but white space is no key. */
  ghost predicate RejectsBlank(valid: string -> bool) {
    forall k :: valid(k) ==> Strip(k) != ""
  }

  /** A marker beside a non-empty key means the operator provided that key. */
  predicate Vouched(slot: Slot) {
    !IsBlank(slot) && IsMarked(slot) ==> slot.file.value.origin.Operator?
  }

  // ---------------------------------------------------------------------------------------
  // The JWT key: provenance holds in every environment
  // ---------------------------------------------------------------------------------------

  lemma {:induction false} JwtStaysVouched(valid: string -> bool, w: World, events: seq<Event>)
    requires Vouched(w.jwt) && IsRun(valid, w, events)
    ensures Vouched(Run(valid, w, events).jwt)
    decreases |events|
  {
    if events != [] {
      JwtStaysVouched(valid, Next(valid, w, events[0]), events[1..]);
    }
  }

  lemma PassingKeysAreProvided(c: Config, i: BootInput)
    requires IsGuarded(i.environment) && Passes(c, i)
    ensures !c.jwtAuto && !c.encAuto
  {
    assert !IsIssue(c, i, JwtNotSet) && !IsIssue(c, i, EncryptionNotSet);
  }

  /** After any run, a guarded boot that starts serving signs tokens with a key the operator provided. */
  lemma GateNeverPassesAppJwt(valid: string -> bool, w: World, events: seq<Event>, i: BootInput)
    requires Vouched(w.jwt) && IsRun(valid, w, events)
    requires IsGuarded(i.environment)
    ensures var outcome := Boot(valid, Run(valid, w, events), i).1;
            outcome.Running? ==> outcome.config.jwt.origin.Operator?
  {
    JwtStaysVouched(valid, w, events);
    var outcome := Boot(valid, Run(valid, w, events), i).1;
    if outcome.Running? {
      PassingKeysAreProvided(outcome.config, i);
    }
  }

  // ---------------------------------------------------------------------------------------
  // The encryption key: exactly which boots break provenance
  // ---------------------------------------------------------------------------------------

  /** Set-up ends and the gate lets the boot go on to `get_encryption_key`. */
  ghost predicate ReachesCipher(valid: string -> bool, w: World, i: BootInput) {
    var step := Init(valid, w, i).1;
    step.Ready? && Passes(step.config, i)
  }

  /** The characters a write leaves in a blank file are not blank. */
  predicate Lands(text: string, w: Write) {
    !w.Refused? && Strip(Kept(text, w)) != ""
  }

  /**
   The guard of the failing branch: `get_encryption_key` runs although a marker stands beside a
   blank key file, and its own write lands.  It does not look at the marker.
   */
  ghost predicate IsHazard(valid: string -> bool, w: World, i: BootInput) {
    && IsMarked(w.enc) && IsBlank(w.enc)
    && ReachesCipher(valid, w, i)
    && (i.encVar == "" || !Lands(i.encVar, i.encWrite))
    && Lands(i.cipherGenerated, i.cipherWrite)
  }

  /** One boot keeps the encryption key's provenance exactly when it is not a hazard. */
  lemma EncStepIff(valid: string -> bool, w: World, i: BootInput)
    requires RejectsBlank(valid) && Vouched(w.enc) && IsCoherent(i)
    ensures Vouched(Boot(valid, w, i).0.enc) <==> !IsHazard(valid, w, i)
  {
    var (w1, step) := Init(valid, w, i);
    var before := EncInit(w, i).0;
    if step.Ready? {
      assert w1.enc == before;
    }
  }

  /** Within one boot the volume is either writable or not. */
  predicate IsSteady(i: BootInput) {
    i.encWrite.Refused? || i.encWrite.Torn? ==> i.cipherWrite.Refused?
  }

  lemma GuardedSteadyBootIsSafe(valid: string -> bool, w: World, i: BootInput)
    requires IsGuarded(i.environment) && IsSteady(i)
    requires RejectsBlank(valid)
    ensures !IsHazard(valid, w, i)
  {
    if IsHazard(valid, w, i) {
      PassingKeysAreProvided(Init(valid, w, i).1.config, i);
    }
  }

  ghost predicate NoHazards(valid: string -> bool, w: World, events: seq<Event>)
    decreases |events|
  {
    events == [] ||
    ((events[0].Start? ==> !IsHazard(valid, w, events[0].input)) && NoHazards(valid, Next(valid, w, events[0]), events[1..]))
  }

  ghost predicate VouchedThroughout(valid: string -> bool, w: World, events: seq<Event>)
    decreases |events|
  {
    Vouched(w.enc) && (events == [] || VouchedThroughout(valid, Next(valid, w, events[0]), events[1..]))
  }

  /** Over every run of boots and operator edits, provenance holds all along exactly when no boot is a hazard. */
  lemma {:induction false} VouchedThroughoutIff(valid: string -> bool, w: World, events: seq<Event>)
    requires RejectsBlank(valid) && Vouched(w.enc) && IsRun(valid, w, events)
    ensures VouchedThroughout(valid, w, events) <==> NoHazards(valid, w, events)
    ensures NoHazards(valid, w, events) ==> Vouched(Run(valid, w, events).enc)
    decreases |events|
  {
    if events != [] {
      var e := events[0];
      if e.Start? {
        EncStepIff(valid, w, e.input);
      }
      if Vouched(Next(valid, w, e).enc) {
        VouchedThroughoutIff(valid, Next(valid, w, e), events[1..]);
      }
    }
  }

  lemma EncStaysVouched(valid: string -> bool, w: World, events: seq<Event>)
    requires RejectsBlank(valid) && Vouched(w.enc) && IsRun(valid, w, events) && NoHazards(valid, w, events)
    ensures Vouched(Run(valid, w, events).enc)
  {
    VouchedThroughoutIff(valid, w, events);
  }

  lemma {:induction false} GuardedSteadyRunsAreSafe(valid: string -> bool, w: World, events: seq<Event>)
    requires RejectsBlank(valid)
    requires forall e :: e in events && e.Start? ==> IsGuarded(e.input.environment) && IsSteady(e.input)
    ensures NoHazards(valid, w, events)
    decreases |events|
  {
    if events != [] {
      if events[0].Start? {
        GuardedSteadyBootIsSafe(valid, w, events[0].input);
      }
      GuardedSteadyRunsAreSafe(valid, Next(valid, w, events[0]), events[1..]);
    }
  }

  /** Over runs of guarded boots on a steady volume, the key that the gate judges in a serving guarded boot is an operator's. */
  lemma GateNeverPassesAppEncryptionKey(valid: string -> bool, w: World, events: seq<Event>, i: BootInput)
    requires RejectsBlank(valid)
    requires Vouched(w.enc) && IsRun(valid, w, events)
    requires forall e :: e in events && e.Start? ==> IsGuarded(e.input.environment) && IsSteady(e.input)
    requires IsGuarded(i.environment)
    ensures var outcome := Boot(valid, Run(valid, w, events), i).1;
            outcome.Running? ==> outcome.config.enc.origin.Operator?
  {
    GuardedSteadyRunsAreSafe(valid, w, events);
    EncStaysVouched(valid, w, events);
    var outcome := Boot(valid, Run(valid, w, events), i).1;
    if outcome.Running? {
      PassingKeysAreProvided(outcome.config, i);
    }
  }

  /** No key that the cipher could use is on disk when it is set up: unreadable, or blank and not seeded. */
  predicate LacksFileKey(w: World, i: BootInput) {
    !i.encReadable || (IsBlank(w.enc) && !Lands(i.encVar, i.encWrite))
  }

  /**
   The gate judges the settings, not the cipher: a guarded boot that serves encrypts with a key the
   app made up exactly when the key file cannot be read, or is blank and the provided key could not
   be put into it.
   */
  lemma AppCipherIff(valid: string -> bool, w: World, i: BootInput)
    requires RejectsBlank(valid) && Vouched(w.enc) && IsGuarded(i.environment) && IsCoherent(i)
    ensures var outcome := Boot(valid, w, i).1;
            outcome.Running? ==> (outcome.cipher.origin.App? <==> LacksFileKey(w, i))
  {
    var outcome := Boot(valid, w, i).1;
    if outcome.Running? {
      PassingKeysAreProvided(outcome.config, i);
    }
  }

  /** The same at the end of every run of guarded boots on a steady volume, operator edits in between. */
  lemma AppCipherAfterRunIff(valid: string -> bool, w: World, events: seq<Event>, i: BootInput)
    requires RejectsBlank(valid)
    requires Vouched(w.enc) && IsRun(valid, w, events)
    requires forall e :: e in events && e.Start? ==> IsGuarded(e.input.environment) && IsSteady(e.input)
    requires IsGuarded(i.environment) && IsCoherent(i)
    ensures var last := Run(valid, w, events);
            var outcome := Boot(valid, last, i).1;
            outcome.Running? ==> (outcome.cipher.origin.Operator? <==> !LacksFileKey(last, i))
  {
    GuardedSteadyRunsAreSafe(valid, w, events);
    EncStaysVouched(valid, w, events);
    AppCipherIff(valid, Run(valid, w, events), i);
  }

  /**
   The provided key takes hold: after one guarded boot seeds a blank slot with working writes, a
   later guarded boot with the variable gone still serves, on that same key.
   */
  lemma SeededKeyTakesHold(valid: string -> bool, w: World, i: BootInput, later: BootInput)
    requires RejectsBlank(valid) && i.encVar != "" && valid(i.encVar) && valid(Strip(i.encVar))
    requires IsBlank(w.enc) && !w.enc.marker.Directory? && WritesWork(i) && WritesWork(later)
    requires i.jwtVar != "" && later.jwtVar != "" && later.encVar == ""
    requires forall c: Config :: !c.jwtAuto && !c.encAuto ==> Passes(c, i) && Passes(c, later)
    ensures var (w1, o1) := Boot(valid, w, i);
            var o2 := Boot(valid, w1, later).1;
            o1.Running? && o2.Running? && o1.cipher == o2.cipher == Secret(Strip(i.encVar), Operator)
  {
    var (w1, o1) := Boot(valid, w, i);
    assert w1.enc == Slot(Some(Secret(i.encVar, Operator)), RegularFile);
  }

  const PLAIN_ORIGIN := "https://forge"

  /** A boot with working writes, no provided encryption key, and otherwise production-ready variables. */
  function PlainInput(environment: string, jwt: string, generated: string): BootInput {
    BootInput(environment, jwt, "", "a long shared secret", PLAIN_ORIGIN,
              generated, generated, generated, true, true, Done, Done, Done, Done)
  }

  /** The gate's other requirements are met by the plain input. */
  lemma PlainInputPasses(c: Config, environment: string, jwt: string, generated: string)
    requires !c.jwtAuto && !c.encAuto
    ensures Passes(c, PlainInput(environment, jwt, generated))
  {
    PlainOriginIsOneEntry();
    PlainOriginIsNotLocal();
    assert PLAIN_ORIGIN[0] != '*';
  }

  lemma OneEntry(s: string)
    requires s != "" && ',' !in s && !IsSpace(s[0]) && !IsSpace(s[|s| - 1])
    ensures CorsOrigins(s) == [s]
  {
    NoSeparator(s, ',');
    assert TrimLeft(s) == s && TrimRight(s) == s;
  }

  lemma PlainOriginIsOneEntry()
    ensures CorsOrigins(PLAIN_ORIGIN) == [PLAIN_ORIGIN]
  {
    OneEntry(PLAIN_ORIGIN);
  }

  lemma PlainOriginIsNotLocal()
    ensures !Contains(PLAIN_ORIGIN, "localhost")
  {
    forall k: nat | k <= |PLAIN_ORIGIN|
      ensures !OccursAt(PLAIN_ORIGIN, k, "localhost")
    {
      if OccursAt(PLAIN_ORIGIN, k, "localhost") {
        FirstCharacterOccurs(PLAIN_ORIGIN, k, "localhost");
      }
    }
  }

  lemma FirstCharacterOccurs(s: string, k: nat, sub: string)
    requires k <= |s| && sub != "" && OccursAt(s, k, sub)
    ensures sub[0] in s
  {
    assert s[k..][0] == s[k];
  }

  lemma {:induction false} NoSeparator(s: string, sep: char)
    requires sep !in s
    ensures Split(s, sep) == [s]
  {
    if s != "" {
      NoSeparator(s[1..], sep);
      assert [s[0]] + s[1..] == s;
    }
  }

  /**
   Why guarded boots are assumed: the operator removes the key but leaves the marker, one
   development boot generates a key beside it, and production then serves on that key.
   */
  lemma DevelopmentBootLaundersKey(valid: string -> bool, k: string)
    requires k != "" && valid(k) && Strip(k) == k
    ensures var w := World(Slot(None, NoMarker), Slot(None, RegularFile));
            var events := [Start(PlainInput("development", "jwt", k))];
            var outcome := Boot(valid, Run(valid, w, events), PlainInput("production", "jwt", k)).1;
            && Vouched(w.enc) && IsRun(valid, w, events)
            && outcome.Running? && outcome.config.enc.origin.App?
  {
    var w := World(Slot(None, NoMarker), Slot(None, RegularFile));
    var dev, prod := PlainInput("development", "jwt", k), PlainInput("production", "jwt", k);
    var events := [Start(dev)];
    var w1 := World(w.jwt, Slot(Some(Secret(k, App)), RegularFile));
    assert Boot(valid, w, dev).0 == w1;
    assert Run(valid, w, events) == w1 by {
      assert events[1..] == [];
      assert Run(valid, w1, []) == w1;
    }
    assert IsRun(valid, w, events) by {
      assert events[1..] == [] && IsRun(valid, w1, []);
    }
    PlainInputPasses(Config(Secret("jwt", Operator), false, Secret(k, App), false), "production", "jwt", k);
  }

  /**
   Why a steady volume is assumed: in production, the provided key cannot be written, the gate
   passes on it all the same, and the generated replacement is written beside the old marker.
   */
  lemma UnsteadyVolumeLaundersKey(valid: string -> bool, provided: string, k: string)
    requires k != "" && valid(k) && Strip(k) == k && provided != "" && valid(provided)
    ensures var w := World(Slot(None, NoMarker), Slot(None, RegularFile));
            var i := PlainInput("production", "jwt", k).(encVar := provided, encWrite := Refused);
            var (w1, outcome) := Boot(valid, w, i);
            outcome.Running? && outcome.cipher.origin.App? && !Vouched(w1.enc)
  {
    var i := PlainInput("production", "jwt", k).(encVar := provided, encWrite := Refused);
    ProvidedInputPasses(Config(Secret("jwt", Operator), false, Secret(provided, Operator), false), i, "jwt", k);
  }

  lemma ProvidedInputPasses(c: Config, i: BootInput, jwt: string, k: string)
    requires !c.jwtAuto && !c.encAuto
    requires i.environment == "production" && i.mcpPassword == "a long shared secret" && i.allowedOrigins == PLAIN_ORIGIN
    ensures Passes(c, i)
  {
    PlainInputPasses(c, "production", jwt, k);
    forall issue
      ensures !IsIssue(c, i, issue)
    {
      assert !IsIssue(c, PlainInput("production", jwt, k), issue);
    }
  }

  /**
   A production boot that cannot read the operator's key file passes the gate on the variable and
   serves on a generated key, which is gone after the boot.
   */
  lemma UnreadableKeyIsReplaced(valid: string -> bool, stored: string, provided: string, k: string)
    requires provided != "" && valid(provided) && Strip(stored) != ""
    ensures var w := World(Slot(None, NoMarker), Slot(Some(Secret(stored, Operator)), RegularFile));
            var i := PlainInput("production", "jwt", k).(
                       encVar := provided, encReadable := false, encWrite := Refused, cipherWrite := Refused);
            var (w1, outcome) := Boot(valid, w, i);
            && IsCoherent(i) && IsSteady(i) && w1 == w
            && outcome.Running? && outcome.config.enc == Secret(provided, Operator) && outcome.cipher == Secret(k, App)
  {
    var i := PlainInput("production", "jwt", k).(
               encVar := provided, encReadable := false, encWrite := Refused, cipherWrite := Refused);
    ProvidedInputPasses(Config(Secret("jwt", Operator), false, Secret(provided, Operator), false), i, "jwt", k);
  }

  // ---------------------------------------------------------------------------------------
  // An existing at-rest key is never lost
  // ---------------------------------------------------------------------------------------

  /** No boot touches a non-empty encryption key file, whatever variables, marker, validity or write outcomes. */
  lemma BootKeepsExistingKey(valid: string -> bool, w: World, i: BootInput)
    requires !IsBlank(w.enc) && IsCoherent(i)
    ensures Boot(valid, w, i).0.enc.file == w.enc.file
  {
  }

  lemma {:induction false} RunKeepsExistingKey(valid: string -> bool, w: World, events: seq<Event>)
    requires !IsBlank(w.enc) && IsRun(valid, w, events) && forall e :: e in events ==> !e.EditEnc?
    ensures Run(valid, w, events).enc.file == w.enc.file
    decreases |events|
  {
    if events != [] {
      var e := events[0];
      if e.Start? {
        BootKeepsExistingKey(valid, w, e.input);
      }
      RunKeepsExistingKey(valid, Next(valid, w, e), events[1..]);
    }
  }

  /** The file's key is `text`. */
  predicate Holds(slot: Slot, text: string) {
    !IsBlank(slot) && Strip(slot.file.value.text) == text
  }

  /**
   After a boot that serves, the file holds the cipher's key exactly when a readable key was there
   before the cipher was set up or the last write landed whole (or the generator repeated a key that
   could not be read).
   */
  lemma KeyIsHeldIff(valid: string -> bool, w: World, i: BootInput)
    requires IsCoherent(i) && Strip(i.cipherGenerated) == i.cipherGenerated && i.cipherGenerated != ""
    ensures var (w1, outcome) := Boot(valid, w, i);
            var w0 := Init(valid, w, i).0;
            outcome.Running? ==>
              (Holds(w1.enc, outcome.cipher.text) <==>
               || (i.encReadable && !IsBlank(w0.enc))
               || Holds(w0.enc, i.cipherGenerated)
               || (!i.cipherWrite.Refused? && Strip(Kept(i.cipherGenerated, i.cipherWrite)) == i.cipherGenerated))
  {
    StripIsIdempotent(if w.enc.file.Some? then w.enc.file.value.text else "");
  }

  /** `encrypt_value` and `decrypt_value` over an abstract cipher. */
  function EncryptValue(encrypt: (string, string) -> string, key: string, value: string): Option<string> {
    if value == "" then None else Some(encrypt(key, value))
  }

  function DecryptValue(decrypt: (string, string) -> Option<string>, key: string, token: string): Option<string> {
    if token == "" then None else decrypt(key, token)
  }

  /**
   A value encrypted by one serving boot under a key the file holds decrypts to itself in every
   later serving boot, after any run in which the operator leaves the encryption key alone.
   */
  lemma PersistedValuesSurvive(
      valid: string -> bool, encrypt: (string, string) -> string, decrypt: (string, string) -> Option<string>,
      w: World, first: BootInput, events: seq<Event>, later: BootInput, value: string)
    requires forall k, v :: encrypt(k, v) != "" && decrypt(k, encrypt(k, v)) == Some(v)
    requires IsCoherent(first) && IsCoherent(later) && later.encReadable && value != ""
    requires var (w1, o1) := Boot(valid, w, first);
             && o1.Running? && Holds(w1.enc, o1.cipher.text)
             && IsRun(valid, w1, events) && forall e :: e in events ==> !e.EditEnc?
    ensures var (w1, o1) := Boot(valid, w, first);
            var o2 := Boot(valid, Run(valid, w1, events), later).1;
            o2.Running? ==>
              DecryptValue(decrypt, o2.cipher.text, EncryptValue(encrypt, o1.cipher.text, value).value) == Some(value)
  {
    var (w1, o1) := Boot(valid, w, first);
    RunKeepsExistingKey(valid, w1, events);
  }

  /**
   With a cipher that rejects foreign keys and a generator that does not repeat the file's key, a
   later serving boot recovers the value exactly when it can read the file.
   */
  lemma SurvivesIffReadable(
      valid: string -> bool, encrypt: (string, string) -> string, decrypt: (string, string) -> Option<string>,
      w: World, first: BootInput, events: seq<Event>, later: BootInput, value: string)
    requires forall k, v :: encrypt(k, v) != "" && decrypt(k, encrypt(k, v)) == Some(v)
    requires forall k, l, v :: k != l ==> decrypt(l, encrypt(k, v)) == None
    requires IsCoherent(first) && IsCoherent(later) && value != ""
    requires var (w1, o1) := Boot(valid, w, first);
             && o1.Running? && Holds(w1.enc, o1.cipher.text) && later.cipherGenerated != o1.cipher.text
             && IsRun(valid, w1, events) && forall e :: e in events ==> !e.EditEnc?
    ensures var (w1, o1) := Boot(valid, w, first);
            var o2 := Boot(valid, Run(valid, w1, events), later).1;
            o2.Running? ==>
              (DecryptValue(decrypt, o2.cipher.text, EncryptValue(encrypt, o1.cipher.text, value).value) == Some(value)
               <==> later.encReadable)
  {
    var (w1, o1) := Boot(valid, w, first);
    RunKeepsExistingKey(valid, w1, events);
    if later.encReadable {
      PersistedValuesSurvive(valid, encrypt, decrypt, w, first, events, later, value);
    }
  }

  // ---------------------------------------------------------------------------------------
  // The judged key is the key in use
  // ---------------------------------------------------------------------------------------

  /** Marker present, key file blank, variable unset: the two generators each produce a key. */
  predicate IsSplit(w: World, i: BootInput) {
    i.encVar == "" && IsBlank(w.enc) && IsMarked(w.enc)
  }

  predicate WritesWork(i: BootInput) {
    i.encReadable && i.jwtWrite.Done? && i.encWrite.Done? && i.markWrite.Done? && i.cipherWrite.Done?
  }

  /** The key that set-up puts in force when there is no file to take it from. */
  function Proposed(i: BootInput): string {
    if i.encVar == "" then i.encGenerated else i.encVar
  }

  /** Set-up writes that key whole; beside a marker it writes a provided key only. */
  predicate ProposalLands(w: World, i: BootInput) {
    && !(i.encVar == "" && IsMarked(w.enc))
    && !i.encWrite.Refused? && Strip(Kept(Proposed(i), i.encWrite)) == Strip(Proposed(i))
  }

  lemma ExistingKeyIsUsed(valid: string -> bool, w: World, i: BootInput)
    requires i.encReadable && !IsBlank(w.enc)
    ensures var outcome := Boot(valid, w, i).1;
            outcome.Running? ==> Strip(outcome.config.enc.text) == outcome.cipher.text
  {
    StripIsIdempotent(w.enc.file.value.text);
  }

  /**
   Whatever the writes do, a boot that serves uses the very key the gate judged (up to surrounding
   white space) exactly when the file can be read and held a key or received the judged one whole.
   */
  lemma JudgedIsUsedIff(valid: string -> bool, w: World, i: BootInput)
    requires RejectsBlank(valid) && IsCoherent(i) && Strip(i.encGenerated) != ""
    requires Strip(i.cipherGenerated) != Strip(Proposed(i)) && Strip(i.cipherGenerated) == i.cipherGenerated
    ensures var outcome := Boot(valid, w, i).1;
            outcome.Running? ==>
              (Strip(outcome.config.enc.text) == outcome.cipher.text
               <==> i.encReadable && (!IsBlank(w.enc) || ProposalLands(w, i)))
  {
    if i.encReadable && !IsBlank(w.enc) {
      ExistingKeyIsUsed(valid, w, i);
    }
  }

  /**
   With working writes, a boot that serves uses the very key the gate judged (up to surrounding
   white space in the variable) except when the keys split, which only an unguarded boot survives.
   */
  lemma JudgedKeyIsUsedIff(valid: string -> bool, w: World, i: BootInput)
    requires WritesWork(i) && RejectsBlank(valid)
    requires Strip(i.encGenerated) == i.encGenerated && i.encGenerated != ""
    requires i.cipherGenerated != i.encGenerated && Strip(i.cipherGenerated) == i.cipherGenerated
    ensures var outcome := Boot(valid, w, i).1;
            outcome.Running? ==>
              && (Strip(outcome.config.enc.text) == outcome.cipher.text <==> !IsSplit(w, i))
              && (IsSplit(w, i) ==> !IsGuarded(i.environment))
  {
    if IsSplit(w, i) {
      SplitKeysDiffer(valid, w, i);
    } else {
      UnsplitKeysAgree(valid, w, i);
    }
  }

  lemma SplitKeysDiffer(valid: string -> bool, w: World, i: BootInput)
    requires WritesWork(i) && IsSplit(w, i)
    ensures var outcome := Boot(valid, w, i).1;
            outcome.Running? ==>
              && outcome.config.enc.text == i.encGenerated && outcome.cipher.text == i.cipherGenerated
              && !IsGuarded(i.environment)
  {
    var outcome := Boot(valid, w, i).1;
    if outcome.Running? && IsGuarded(i.environment) {
      PassingKeysAreProvided(outcome.config, i);
    }
  }

  lemma UnsplitKeysAgree(valid: string -> bool, w: World, i: BootInput)
    requires WritesWork(i) && RejectsBlank(valid) && !IsSplit(w, i)
    requires Strip(i.encGenerated) == i.encGenerated && i.encGenerated != ""
    ensures var outcome := Boot(valid, w, i).1;
            outcome.Running? ==> Strip(outcome.config.enc.text) == outcome.cipher.text
  {
    if !IsBlank(w.enc) {
      ExistingKeyIsUsed(valid, w, i);
    }
  }
}
