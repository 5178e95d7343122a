/**
 Which keys a boot puts in force, what it leaves on disk, and exactly which boots serve: the
 promises of the settings and of the gate, stated over whole boots and over runs of them.
 */
module KeyInForce {
  import opened Text
  import opened KeyStore
  import opened KeyProvenance

  /** A key that the boot can read from the file. */
  predicate HasStored(slot: Slot, readable: bool) {
    readable && slot.file.Some? && Strip(slot.file.value.text) != ""
  }

  // ---------------------------------------------------------------------------------------
  // The JWT key
  // ---------------------------------------------------------------------------------------

  /** A provided JWT key is in force as it is, and its file is left alone. */
  lemma ProvidedJwtIsUsed(valid: string -> bool, w: World, i: BootInput)
    requires i.jwtVar != ""
    ensures var (w1, outcome) := Boot(valid, w, i);
            && w1.jwt == w.jwt
            && (outcome.Running? ==> outcome.config.jwt == Secret(i.jwtVar, Operator) && !outcome.config.jwtAuto)
  {
  }

  /** Without a variable the stored JWT key is loaded, never replaced, and counts as provided exactly beside a marker file. */
  lemma StoredJwtIsLoaded(valid: string -> bool, w: World, i: BootInput)
    requires i.jwtVar == "" && HasStored(w.jwt, i.jwtReadable)
    ensures var (w1, outcome) := Boot(valid, w, i);
            && w1.jwt == w.jwt
            && (outcome.Running? ==>
                  && outcome.config.jwt == Secret(Strip(w.jwt.file.value.text), w.jwt.file.value.origin)
                  && (outcome.config.jwtAuto <==> w.jwt.marker != RegularFile))
  {
  }

  /**
   Without a variable and a stored key, a boot generates one, which never counts as provided; a
   working write saves it, except beside a marker, where nothing is written.
   */
  lemma GeneratedJwtIsSaved(valid: string -> bool, w: World, i: BootInput)
    requires i.jwtVar == "" && !HasStored(w.jwt, i.jwtReadable)
    ensures var (w1, outcome) := Boot(valid, w, i);
            && (outcome.Running? ==> outcome.config.jwt == Secret(i.jwtGenerated, App) && outcome.config.jwtAuto)
            && w1.jwt.marker == w.jwt.marker
            && (w.jwt.marker == RegularFile || i.jwtWrite == Refused ==> w1.jwt.file == w.jwt.file)
            && (w.jwt.marker != RegularFile && i.jwtWrite == Done ==> w1.jwt.file == Some(Secret(i.jwtGenerated, App)))
  {
  }

  /** The JWT key of this boot is in the file afterwards. */
  predicate IsLeftInFile(slot: Slot, key: Secret) {
    slot.file.Some? && Strip(slot.file.value.text) == key.text && key.text != ""
  }

  lemma StoredJwtStays(valid: string -> bool, w: World, e: Event)
    requires w.jwt.file.Some? && Strip(w.jwt.file.value.text) != "" && IsPossible(w, e) && !e.EditJwt?
    ensures Next(valid, w, e).jwt == w.jwt
  {
    if e.Start? {
      if e.input.jwtVar != "" {
        ProvidedJwtIsUsed(valid, w, e.input);
      } else if e.input.jwtReadable {
        StoredJwtIsLoaded(valid, w, e.input);
      } else {
        GeneratedJwtIsSaved(valid, w, e.input);
      }
    }
  }

  lemma {:induction false} RunKeepsStoredJwt(valid: string -> bool, w: World, events: seq<Event>)
    requires w.jwt.file.Some? && Strip(w.jwt.file.value.text) != ""
    requires IsRun(valid, w, events) && forall e :: e in events ==> !e.EditJwt?
    ensures Run(valid, w, events).jwt == w.jwt
    decreases |events|
  {
    if events != [] {
      StoredJwtStays(valid, w, events[0]);
      RunKeepsStoredJwt(valid, Next(valid, w, events[0]), events[1..]);
    }
  }

  /**
   Tokens survive restarts: once a serving boot without the variable has left its JWT key in the
   file, every later serving boot without the variable signs with that key exactly when it can read
   the file, whatever boots and edits of the other key came between.
   */
  lemma JwtSurvivesIff(valid: string -> bool, w: World, first: BootInput, events: seq<Event>, later: BootInput)
    requires first.jwtVar == "" && later.jwtVar == ""
    requires var (w1, o1) := Boot(valid, w, first);
             && o1.Running? && IsLeftInFile(w1.jwt, o1.config.jwt) && later.jwtGenerated != o1.config.jwt.text
             && IsRun(valid, w1, events) && forall e :: e in events ==> !e.EditJwt?
    ensures var (w1, o1) := Boot(valid, w, first);
            var o2 := Boot(valid, Run(valid, w1, events), later).1;
            o2.Running? ==> (o2.config.jwt.text == o1.config.jwt.text <==> later.jwtReadable)
  {
    var (w1, o1) := Boot(valid, w, first);
    RunKeepsStoredJwt(valid, w1, events);
    if later.jwtReadable {
      StoredJwtIsLoaded(valid, w1, later);
      StoredJwtIsLoaded(valid, Run(valid, w1, events), later);
    } else {
      GeneratedJwtIsSaved(valid, Run(valid, w1, events), later);
    }
  }

  /** The hypothesis of the theorem: the key is left in the file if it came from there, or a working write saved it. */
  lemma JwtIsLeftInFile(valid: string -> bool, w: World, i: BootInput)
    requires i.jwtVar == "" && Strip(i.jwtGenerated) == i.jwtGenerated && i.jwtGenerated != ""
    requires HasStored(w.jwt, i.jwtReadable) || (i.jwtWrite == Done && w.jwt.marker != RegularFile)
    ensures var (w1, outcome) := Boot(valid, w, i);
            outcome.Running? ==> IsLeftInFile(w1.jwt, outcome.config.jwt)
  {
    if HasStored(w.jwt, i.jwtReadable) {
      StoredJwtIsLoaded(valid, w, i);
    } else {
      GeneratedJwtIsSaved(valid, w, i);
    }
  }

  // ---------------------------------------------------------------------------------------
  // The encryption key
  // ---------------------------------------------------------------------------------------

  /** A stored encryption key is judged and used whatever the variable says, and counts as provided exactly beside a marker file. */
  lemma StoredEncryptionKeyWins(valid: string -> bool, w: World, i: BootInput)
    requires HasStored(w.enc, i.encReadable)
    ensures var (w1, outcome) := Boot(valid, w, i);
            var key := Secret(Strip(w.enc.file.value.text), w.enc.file.value.origin);
            && w1.enc == w.enc
            && (outcome.Running? ==>
                  && outcome.config.enc == key && (outcome.config.encAuto <==> w.enc.marker != RegularFile)
                  && outcome.cipher == key)
  {
    StripIsIdempotent(w.enc.file.value.text);
  }

  /** Without a stored key a valid variable is judged as provided; working writes store it beside a marker and it encrypts. */
  lemma ProvidedEncryptionKeySeeds(valid: string -> bool, w: World, i: BootInput)
    requires RejectsBlank(valid) && i.encVar != "" && !HasStored(w.enc, i.encReadable)
    ensures var (w1, outcome) := Boot(valid, w, i);
            outcome.Running? ==>
              && valid(i.encVar) && outcome.config.enc == Secret(i.encVar, Operator) && !outcome.config.encAuto
              && (i.encReadable && i.encWrite == Done ==>
                    && w1.enc.file == Some(Secret(i.encVar, Operator))
                    && (i.markWrite == Done && w.enc.marker != Directory ==> w1.enc.marker == RegularFile)
                    && outcome.cipher == Secret(Strip(i.encVar), Operator))
  {
  }

  /**
   With neither a stored key nor a variable the judged key is generated and never counts as
   provided; a working write stores it, except beside a marker, and leaves the marker alone.
   */
  lemma GeneratedEncryptionKeyIsAuto(valid: string -> bool, w: World, i: BootInput)
    requires i.encVar == "" && !HasStored(w.enc, i.encReadable)
    ensures var (w1, outcome) := Boot(valid, w, i);
            outcome.Running? ==>
              && outcome.config.enc == Secret(i.encGenerated, App) && outcome.config.encAuto && w1.enc.marker == w.enc.marker
              && (i.encReadable && i.encWrite == Done && w.enc.marker != RegularFile && Strip(i.encGenerated) != "" ==>
                    w1.enc.file == Some(Secret(i.encGenerated, App)))
  {
  }

  // ---------------------------------------------------------------------------------------
  // Who serves
  // ---------------------------------------------------------------------------------------

  /** What staging and production ask for, in terms of the variables and the disk. */
  ghost predicate MeetsProductionRules(w: World, i: BootInput) {
    && (i.jwtVar != "" || (HasStored(w.jwt, i.jwtReadable) && w.jwt.marker == RegularFile))
    && (if HasStored(w.enc, i.encReadable) then w.enc.marker == RegularFile else i.encVar != "")
    && i.mcpPassword != "" && i.mcpPassword != "mcp-service-changeme" && i.mcpPassword != "changeme"
    && forall o :: o in CorsOrigins(i.allowedOrigins) ==> o != "*" && (i.environment == "production" ==> !Contains(o, "localhost"))
  }

  lemma PassesIff(valid: string -> bool, w: World, i: BootInput)
    ensures var step := Init(valid, w, i).1;
            step.Ready? ==>
              (Passes(step.config, i) <==> (i.environment == "staging" || i.environment == "production" ==> MeetsProductionRules(w, i)))
  {
    var step := Init(valid, w, i).1;
    if step.Ready? {
      RulesAreIssues(step.config, i);
    }
  }

  lemma RulesAreIssues(c: Config, i: BootInput)
    ensures (forall issue :: !IsIssue(c, i, issue)) <==>
            && !c.jwtAuto && !c.encAuto
            && i.mcpPassword != "" && i.mcpPassword != "mcp-service-changeme" && i.mcpPassword != "changeme"
            && forall o :: o in CorsOrigins(i.allowedOrigins) ==> o != "*" && (i.environment == "production" ==> !Contains(o, "localhost"))
  {
    var origins := CorsOrigins(i.allowedOrigins);
    if forall issue :: !IsIssue(c, i, issue) {
      assert !IsIssue(c, i, JwtNotSet) && !IsIssue(c, i, EncryptionNotSet) && !IsIssue(c, i, McpPasswordNotSet);
      assert !IsIssue(c, i, WildcardOrigin) && !IsIssue(c, i, LocalhostOrigin);
    }
  }

  /**
   Exactly which boots serve, when no write is torn or fatal and generated keys are usable: the
   variable is a key, a stored key is usable, and in staging and production the rules are met.
   */
  lemma ServesIff(valid: string -> bool, w: World, i: BootInput)
    requires i.jwtWrite in {Done, Refused} && i.encWrite in {Done, Refused} && i.markWrite in {Done, Refused} && i.cipherWrite in {Done, Refused}
    requires valid(i.encVar) ==> valid(Strip(i.encVar))
    requires valid(Strip(i.encGenerated))
    ensures Boot(valid, w, i).1.Running? <==>
            && (i.encVar != "" ==> valid(i.encVar))
            && (HasStored(w.enc, i.encReadable) ==> valid(Strip(w.enc.file.value.text)))
            && (i.environment == "staging" || i.environment == "production" ==> MeetsProductionRules(w, i))
  {
    PassesIff(valid, w, i);
  }

  /** A comma-separated list of origins. */
  function JoinCommas(entries: seq<string>): string
    requires entries != []
  {
    if |entries| == 1 then entries[0] else entries[0] + "," + JoinCommas(entries[1..])
  }

  /** The gate sees every entry of the list, without surrounding white space. */
  lemma {:induction false} OriginsAreEntries(entries: seq<string>)
    requires entries != [] && forall e :: e in entries ==> ',' !in e
    ensures |CorsOrigins(JoinCommas(entries))| == |entries|
    ensures forall k :: 0 <= k < |entries| ==> CorsOrigins(JoinCommas(entries))[k] == Strip(entries[k])
  {
    SplitInvertsJoin(entries);
  }

  lemma {:induction false} SplitInvertsJoin(entries: seq<string>)
    requires entries != [] && forall e :: e in entries ==> ',' !in e
    ensures Split(JoinCommas(entries), ',') == entries
  {
    assert entries[0] in entries;
    if |entries| == 1 {
      NoSeparator(entries[0], ',');
    } else {
      SplitInvertsJoin(entries[1..]);
      SplitAtFirst(entries[0], JoinCommas(entries[1..]));
      assert entries == [entries[0]] + entries[1..];
    }
  }

  lemma {:induction false} SplitAtFirst(a: string, b: string)
    requires ',' !in a
    ensures Split(a + "," + b, ',') == [a] + Split(b, ',')
  {
    var s := a + "," + b;
    if a == "" {
      assert s[1..] == b;
    } else {
      SplitAtFirst(a[1..], b);
      assert s[1..] == a[1..] + "," + b && s[0] == a[0];
      assert [a[0]] + a[1..] == a;
    }
  }
}
