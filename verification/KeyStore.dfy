/**
 The two key files (JWT secret, at-rest encryption key) with their operator markers, the writers
 that share them, and one boot of the backend: settings, production gate, cipher set-up.

 Every write can be refused, be torn after some characters, or be the last thing the process
 does.  `Origin` records who produced the characters; no branch of the code looks at it.
 */
module KeyStore {
  import opened Text

  datatype Origin = Operator | App

  datatype Secret = Secret(text: string, origin: Origin)

  datatype Marker = NoMarker | RegularFile | Directory

  /** What is on disk at `<key_path>` and `<key_path>.operator`. */
  datatype Slot = Slot(file: Option<Secret>, marker: Marker)

  datatype Write = Done | Refused | Torn(kept: nat) | Dies(kept: nat)

  datatype KeyStep = Key(secret: Secret, auto: bool) | Killed

  datatype CipherStep = Cipher(secret: Secret) | Unusable | KilledHere

  predicate IsBlank(slot: Slot) {
    slot.file.None? || Strip(slot.file.value.text) == ""
  }

  predicate IsMarked(slot: Slot) {
    slot.marker.RegularFile?
  }

  /** The characters that reach the file when it could be opened. */
  function Kept(text: string, w: Write): string {
    if (w.Torn? || w.Dies?) && w.kept < |text| then text[..w.kept] else text
  }

  function AfterWrite(slot: Slot, key: Secret, w: Write): Slot {
    if w.Refused? then slot else slot.(file := Some(Secret(Kept(key.text, w), key.origin)))
  }

  /** Opening the marker for writing creates it; a directory in its place makes the open fail. */
  function AfterMark(slot: Slot, w: Write): Slot {
    if slot.marker.Directory? || w.Refused? || w == Dies(0) then slot else slot.(marker := RegularFile)
  }

  function Stripped(key: Secret): Secret {
    Secret(Strip(key.text), key.origin)
  }

  // ---------------------------------------------------------------------------------------
  // What each writer does to its slot
  // ---------------------------------------------------------------------------------------

  function PersistOrLoad(slot: Slot, readable: bool, generated: Secret, w: Write): (Slot, KeyStep) {
    if readable && !IsBlank(slot) then
      (slot, Key(Stripped(slot.file.value), !IsMarked(slot)))
    else if IsMarked(slot) then
      (slot, Key(generated, true))
    else
      (AfterWrite(slot, generated, w), if w.Dies? then Killed else Key(generated, true))
  }

  function SeedIfAbsent(slot: Slot, readable: bool, provided: Secret, w: Write, mark: Write): (Slot, KeyStep) {
    if readable && !IsBlank(slot) then
      (slot, Key(Stripped(slot.file.value), !IsMarked(slot)))
    else if w.Dies? then
      (AfterWrite(slot, provided, w), Killed)
    else if w.Done? && !IsMarked(slot) then
      (AfterMark(AfterWrite(slot, provided, w), mark), if mark.Dies? then Killed else Key(provided, false))
    else
      (AfterWrite(slot, provided, w), Key(provided, false))
  }

  function CipherKey(slot: Slot, readable: bool, valid: string -> bool, generated: Secret, w: Write): (Slot, CipherStep) {
    if readable && !IsBlank(slot) then
      (slot, if valid(Strip(slot.file.value.text)) then Cipher(Stripped(slot.file.value)) else Unusable)
    else
      (AfterWrite(slot, generated, w), if w.Dies? then KilledHere else Cipher(generated))
  }

  // ---------------------------------------------------------------------------------------
  // One boot
  // ---------------------------------------------------------------------------------------

  datatype World = World(jwt: Slot, enc: Slot)

  /** Everything a boot receives from outside: variables, fresh random keys, I/O outcomes. */
  datatype BootInput = BootInput(
    environment: string,
    jwtVar: string,          // "" when unset: the code treats both alike
    encVar: string,
    mcpPassword: string,
    allowedOrigins: string,
    jwtGenerated: string, encGenerated: string, cipherGenerated: string,
    jwtReadable: bool, encReadable: bool,
    jwtWrite: Write, encWrite: Write, markWrite: Write, cipherWrite: Write)

  datatype Config = Config(jwt: Secret, jwtAuto: bool, enc: Secret, encAuto: bool)

  datatype InitStep = Ready(config: Config) | InvalidVariable | InitKilled

  datatype Issue = JwtNotSet | EncryptionNotSet | McpPasswordNotSet | WildcardOrigin | LocalhostOrigin

  datatype Outcome = Crashed | Exited | Running(config: Config, cipher: Secret)

  function JwtInit(w: World, i: BootInput): (Slot, KeyStep) {
    if i.jwtVar == "" then PersistOrLoad(w.jwt, i.jwtReadable, Secret(i.jwtGenerated, App), i.jwtWrite)
    else (w.jwt, Key(Secret(i.jwtVar, Operator), false))
  }

  function EncInit(w: World, i: BootInput): (Slot, KeyStep) {
    if i.encVar == "" then PersistOrLoad(w.enc, i.encReadable, Secret(i.encGenerated, App), i.encWrite)
    else SeedIfAbsent(w.enc, i.encReadable, Secret(i.encVar, Operator), i.encWrite, i.markWrite)
  }

  function Init(valid: string -> bool, w: World, i: BootInput): (World, InitStep) {
    var (jwt, jwtStep) := JwtInit(w, i);
    if jwtStep.Killed? then (World(jwt, w.enc), InitKilled)
    else if i.encVar != "" && !valid(i.encVar) then (World(jwt, w.enc), InvalidVariable)
    else
      var (enc, encStep) := EncInit(w, i);
      if encStep.Killed? then (World(jwt, enc), InitKilled)
      else (World(jwt, enc), Ready(Config(jwtStep.secret, jwtStep.auto, encStep.secret, encStep.auto)))
  }

  predicate IsGuarded(environment: string) {
    environment in {"staging", "production"}
  }

  function CorsOrigins(raw: string): seq<string> {
    var parts := Split(raw, ',');
    seq(|parts|, k requires 0 <= k < |parts| => Strip(parts[k]))
  }

  ghost predicate HasLocalhost(origins: seq<string>) {
    exists o :: o in origins && Contains(o, "localhost")
  }

  ghost predicate IsIssue(c: Config, i: BootInput, issue: Issue) {
    match issue
    case JwtNotSet => c.jwtAuto
    case EncryptionNotSet => c.encAuto
    case McpPasswordNotSet => i.mcpPassword in {"", "mcp-service-changeme", "changeme"}
    case WildcardOrigin => "*" in CorsOrigins(i.allowedOrigins)
    case LocalhostOrigin => i.environment == "production" && HasLocalhost(CorsOrigins(i.allowedOrigins))
  }

  /** The gate lets the boot go on. */
  ghost predicate Passes(c: Config, i: BootInput) {
    IsGuarded(i.environment) ==> forall issue :: !IsIssue(c, i, issue)
  }

  ghost function Boot(valid: string -> bool, w: World, i: BootInput): (World, Outcome) {
    var (w1, step) := Init(valid, w, i);
    match step
    case InitKilled => (w1, Crashed)
    case InvalidVariable => (w1, Exited)
    case Ready(c) =>
      if !Passes(c, i) then (w1, Exited)
      else
        var (enc, cipher) := CipherKey(w1.enc, i.encReadable, valid, Secret(i.cipherGenerated, App), i.cipherWrite);
        (World(w1.jwt, enc),
         match cipher
         case KilledHere => Crashed
         case Unusable => Exited
         case Cipher(k) => Running(c, k))
  }

  // ---------------------------------------------------------------------------------------
  // The code: methods over mutable files and settings
  // ---------------------------------------------------------------------------------------

  class KeyPath {
    var file: Option<Secret>
    var marker: Marker

    function State(): Slot
      reads this
    {
      Slot(file, marker)
    }

    constructor (slot: Slot)
      ensures State() == slot
    {
      file, marker := slot.file, slot.marker;
    }

    /** Returns whether the key was persisted; `killed` when the process did not survive the write. */
    method WriteKeyFile0600(key: Secret, w: Write) returns (ok: bool, killed: bool)
      modifies this`file
      ensures State() == AfterWrite(old(State()), key, w)
      ensures w.Done? ==> file == Some(key)
      ensures w.Refused? ==> file == old(file)
      ensures w.Torn? || w.Dies? ==>
                file.Some? && file.value.origin == key.origin && file.value.text == if w.kept < |key.text| then key.text[..w.kept] else key.text
      ensures ok == w.Done? && killed == w.Dies?
    {
      if w.Refused? {
        return false, false;
      }
      file := Some(Secret(Kept(key.text, w), key.origin));
      return w.Done?, w.Dies?;
    }

    method WriteMarker(w: Write) returns (killed: bool)
      modifies this`marker
      ensures State() == AfterMark(old(State()), w) && killed == w.Dies?
    {
      if !marker.Directory? && !w.Refused? && w != Dies(0) {
        marker := RegularFile;
      }
      return w.Dies?;
    }

    method PersistOrLoadKey(readable: bool, generated: Secret, w: Write) returns (step: KeyStep)
      modifies this`file
      ensures (State(), step) == PersistOrLoad(old(State()), readable, generated, w)
    {
      var markerPresent := marker.RegularFile?;
      if file.Some? && readable {
        var key := Strip(file.value.text);
        if key != "" {
          return Key(Secret(key, file.value.origin), !markerPresent);
        }
      }
      if markerPresent {
        return Key(generated, true);
      }
      var _, killed := WriteKeyFile0600(generated, w);
      step := if killed then Killed else Key(generated, true);
    }

    method SeedEncryptionKeyIfAbsent(readable: bool, provided: Secret, w: Write, mark: Write) returns (step: KeyStep)
      modifies this
      ensures (State(), step) == SeedIfAbsent(old(State()), readable, provided, w, mark)
    {
      if file.Some? {
        var existing := if readable then Strip(file.value.text) else "";
        if existing != "" {
          return Key(Secret(existing, file.value.origin), !marker.RegularFile?);
        }
      }
      var ok, killed := WriteKeyFile0600(provided, w);
      if killed {
        return Killed;
      }
      if ok && !marker.RegularFile? {
        killed := WriteMarker(mark);
        if killed {
          return Killed;
        }
      }
      return Key(provided, false);
    }

    method GetEncryptionKey(readable: bool, valid: string -> bool, generated: Secret, w: Write) returns (step: CipherStep)
      modifies this`file
      ensures (State(), step) == CipherKey(old(State()), readable, valid, generated, w)
    {
      if file.Some? && readable {
        var existing := Strip(file.value.text);
        if existing != "" {
          if !valid(existing) {
            return Unusable;
          }
          return Cipher(Secret(existing, file.value.origin));
        }
      }
      var _, killed := WriteKeyFile0600(generated, w);
      step := if killed then KilledHere else Cipher(generated);
    }
  }

  class Settings {
    var jwtSecretKey: Secret
    var encryptionKey: Secret
    var jwtKeyAutoGenerated: bool
    var encryptionKeyAutoGenerated: bool

    function Current(): Config
      reads this
    {
      Config(jwtSecretKey, jwtKeyAutoGenerated, encryptionKey, encryptionKeyAutoGenerated)
    }

    constructor (i: BootInput) {
      jwtSecretKey, encryptionKey := Secret(i.jwtVar, Operator), Secret(i.encVar, Operator);
      jwtKeyAutoGenerated, encryptionKeyAutoGenerated := false, false;
    }

    method Initialise(valid: string -> bool, jwtPath: KeyPath, encPath: KeyPath, i: BootInput) returns (halted: Option<Outcome>)
      requires jwtPath != encPath
      modifies this, jwtPath, encPath
      ensures var (w, step) := Init(valid, World(old(jwtPath.State()), old(encPath.State())), i);
              && World(jwtPath.State(), encPath.State()) == w
              && halted == (match step case Ready(_) => None case InvalidVariable => Some(Exited) case InitKilled => Some(Crashed))
              && (step.Ready? ==> Current() == step.config)
    {
      var jwt := Key(Secret(i.jwtVar, Operator), false);
      if i.jwtVar == "" {
        jwt := jwtPath.PersistOrLoadKey(i.jwtReadable, Secret(i.jwtGenerated, App), i.jwtWrite);
        if jwt.Killed? {
          return Some(Crashed);
        }
      }
      jwtSecretKey, jwtKeyAutoGenerated := jwt.secret, jwt.auto;

      var enc: KeyStep;
      if i.encVar == "" {
        enc := encPath.PersistOrLoadKey(i.encReadable, Secret(i.encGenerated, App), i.encWrite);
      } else {
        if !valid(i.encVar) {
          return Some(Exited);
        }
        enc := encPath.SeedEncryptionKeyIfAbsent(i.encReadable, Secret(i.encVar, Operator), i.encWrite, i.markWrite);
      }
      if enc.Killed? {
        return Some(Crashed);
      }
      encryptionKey, encryptionKeyAutoGenerated := enc.secret, enc.auto;
      return None;
    }

    /** Appends one issue per failed requirement; the boot exits when there is any. */
    method ValidateProduction(i: BootInput) returns (issues: seq<Issue>)
      ensures !IsGuarded(i.environment) ==> issues == []
      ensures IsGuarded(i.environment) ==> forall issue :: issue in issues <==> IsIssue(Current(), i, issue)
      ensures issues == [] <==> Passes(Current(), i)
    {
      issues := [];
      if i.environment !in {"staging", "production"} {
        return;
      }
      if jwtKeyAutoGenerated {
        issues := issues + [JwtNotSet];
      }
      if encryptionKeyAutoGenerated {
        issues := issues + [EncryptionNotSet];
      }
      if i.mcpPassword == "" || i.mcpPassword in ["mcp-service-changeme", "changeme"] {
        issues := issues + [McpPasswordNotSet];
      }
      var originIssues := CheckOrigins(CorsOrigins(i.allowedOrigins), i.environment == "production");
      issues := issues + originIssues;
      assert issues != [] ==> issues[0] in issues;
    }
  }

  /** The part of the validation that looks at the parsed origins. */
  method CheckOrigins(origins: seq<string>, production: bool) returns (issues: seq<Issue>)
    ensures forall issue :: issue in issues <==>
              (issue == WildcardOrigin && "*" in origins) || (issue == LocalhostOrigin && production && HasLocalhost(origins))
  {
    issues := [];
    if "*" in origins {
      issues := issues + [WildcardOrigin];
    }
    if production {
      var local := AnyLocalhost(origins);
      if local {
        issues := issues + [LocalhostOrigin];
      }
    }
  }

  method AnyLocalhost(origins: seq<string>) returns (found: bool)
    ensures found <==> HasLocalhost(origins)
  {
    for k := 0 to |origins|
      invariant forall o :: o in origins[..k] ==> !Contains(o, "localhost")
    {
      if Contains(origins[k], "localhost") {
        assert origins[k] in origins;
        return true;
      }
    }
    assert origins[..|origins|] == origins;
    return false;
  }

  /** Import-time sequence of a backend process. */
  method RunBoot(valid: string -> bool, jwtPath: KeyPath, encPath: KeyPath, i: BootInput) returns (outcome: Outcome)
    requires jwtPath != encPath
    modifies jwtPath, encPath
    ensures (World(jwtPath.State(), encPath.State()), outcome) == Boot(valid, World(old(jwtPath.State()), old(encPath.State())), i)
  {
    var settings := new Settings(i);
    var halted := settings.Initialise(valid, jwtPath, encPath, i);
    if halted.Some? {
      return halted.value;
    }
    var issues := settings.ValidateProduction(i);
    if issues != [] {
      return Exited;
    }
    var config := settings.Current();
    var step := encPath.GetEncryptionKey(i.encReadable, valid, Secret(i.cipherGenerated, App), i.cipherWrite);
    match step
    case KilledHere => outcome := Crashed;
    case Unusable => outcome := Exited;
    case Cipher(k) => outcome := Running(config, k);
  }
}
