/** The stored configuration (QuickCodeConfig, ProjectConfig), the secret handling and
    migration of ConfigService, and the `config` command's set / unset / get operations
    (CliApplication.ApplySet, ApplyUnset, ResolveValue). */
module Config {
  import opened Common

  const DefaultApiUrl: string := "https://api.quickcode.net/"

  /** What `ResolveValue` shows for a stored secret. */
  const Mask: string := "********"

  /** `ProjectConfig`: both fields nullable. */
  datatype ProjectConfig = ProjectConfig(email: Option<string>, secretCode: Option<string>)

  const EmptyProject: ProjectConfig := ProjectConfig(None, None)

  /** One dictionary entry: the key as it was first stored, and its settings. The map holding
      entries is keyed by the folded name, which is what `OrdinalIgnoreCase` compares. */
  datatype Entry = Entry(name: string, settings: ProjectConfig)

  /** The configuration as a value: what is saved and what the operations below compute. */
  datatype ConfigState = ConfigState(apiUrl: string, projects: map<string, Entry>)

  const DefaultState: ConfigState := ConfigState(DefaultApiUrl, map[])

  /** Every entry sits under the fold of its stored name. */
  predicate KeysFolded(ps: map<string, Entry>)
  {
    forall k :: k in ps ==> Fold(ps[k].name) == k
  }

  /** `Projects.TryGetValue(name, ...)`. */
  function Lookup(ps: map<string, Entry>, name: string): Option<ProjectConfig>
  {
    if Fold(name) in ps then Some(ps[Fold(name)].settings) else None
  }

  /** `Projects[name] = settings`: an existing entry keeps its stored key, a new one is stored
      under `name` as given. */
  function Store(ps: map<string, Entry>, name: string, settings: ProjectConfig): (r: map<string, Entry>)
    ensures Lookup(r, name) == Some(settings)
    ensures forall n :: !EqualsIgnoreCase(n, name) ==> Lookup(r, n) == Lookup(ps, n)
    ensures r.Keys == ps.Keys + {Fold(name)}
    ensures r[Fold(name)].name == if Fold(name) in ps then ps[Fold(name)].name else name
    ensures KeysFolded(ps) ==> KeysFolded(r)
  {
    var k := Fold(name);
    ps[k := Entry(if k in ps then ps[k].name else name, settings)]
  }

  /** `Projects.Remove(name)`. */
  function Remove(ps: map<string, Entry>, name: string): (r: map<string, Entry>)
    ensures Lookup(r, name) == None
    ensures forall n :: !EqualsIgnoreCase(n, name) ==> Lookup(r, n) == Lookup(ps, n)
    ensures r.Keys == ps.Keys - {Fold(name)}
    ensures KeysFolded(ps) ==> KeysFolded(r)
  {
    ps - {Fold(name)}
  }

  /** `QuickCodeConfig`: the API address and the project dictionary, updated in place. */
  class QuickCodeConfig {
    var apiUrl: string
    var projects: map<string, Entry>

    ghost predicate Valid()
      reads this
    {
      KeysFolded(projects)
    }

    function Current(): ConfigState
      reads this
    {
      ConfigState(apiUrl, projects)
    }

    /** A fresh configuration: the public API address and no projects. */
    constructor()
      ensures Valid() && Current() == DefaultState
    {
      apiUrl := DefaultApiUrl;
      projects := map[];
    }

    function TryGet(name: string): Option<ProjectConfig>
      reads this
    {
      Lookup(projects, name)
    }

    method SetProject(name: string, settings: ProjectConfig)
      requires Valid()
      modifies this
      ensures Valid()
      ensures apiUrl == old(apiUrl) && projects == Store(old(projects), name, settings)
    {
      projects := Store(projects, name, settings);
    }

    /** Removes the entry stored under any casing of `name`; reports whether there was one. */
    method RemoveProject(name: string) returns (removed: bool)
      requires Valid()
      modifies this
      ensures Valid()
      ensures removed <==> old(TryGet(name)).Some?
      ensures apiUrl == old(apiUrl) && projects == Remove(old(projects), name)
    {
      removed := Fold(name) in projects;
      projects := Remove(projects, name);
    }

    /** The migration loop of `Load`: every non-blank secret the recogniser does not take for
        ciphertext is encrypted; reports whether any was. */
    method MigrateSecrets(c: Crypto, rec: Recogniser) returns (needsSave: bool)
      requires Valid()
      modifies this
      ensures Valid()
      ensures apiUrl == old(apiUrl) && projects == MigrateAll(c, rec, old(projects))
      ensures needsSave <==> NeedsSave(rec, old(projects))
    {
      ghost var start := projects;
      var todo := projects.Keys;
      needsSave := false;
      MigratedNone(c, rec, start);
      while todo != {}
        invariant todo <= start.Keys
        invariant apiUrl == old(apiUrl)
        invariant projects == PartlyMigrated(c, rec, start, todo)
        invariant needsSave <==> NeedsSaveAmong(rec, start, start.Keys - todo)
        decreases todo
      {
        var k :| k in todo;
        MigrateStep(c, rec, start, todo, k);
        var migrated := MigrateProject(c, rec, k);
        needsSave := needsSave || migrated;
        todo := todo - {k};
      }
      MigratedAll(c, rec, start);
    }

    /** The body of the migration loop for the project under `k`: a secret that needs it is
        replaced by its ciphertext, and the answer says whether it did. */
    method MigrateProject(c: Crypto, rec: Recogniser, k: string) returns (migrated: bool)
      requires k in projects
      modifies this
      ensures apiUrl == old(apiUrl) && projects == old(projects)[k := MigrateEntry(c, rec, old(projects)[k])]
      ensures migrated <==> NeedsMigration(rec, old(projects)[k].settings.secretCode)
    {
      var e := projects[k];
      migrated := NeedsMigration(rec, e.settings.secretCode);
      if migrated {
        projects := projects[k := e.(settings := e.settings.(secretCode := Some(EncryptSecret(c, e.settings.secretCode.value))))];
      }
    }
  }

  /* ---------------------------------------------------------------------------------------
     Secrets
     --------------------------------------------------------------------------------------- */

  /** The AES key and cipher, outside the model: `encrypt` is one run of the encryption (a
      random IV and AES-CBC, then Base64), `decrypt` the decryption, `None` where it throws. */
  datatype Crypto = Crypto(encrypt: string -> string, decrypt: string -> Option<string>)

  /** Bytes of the UTF-8 encoding `StreamWriter` writes. */
  function Utf8Length(s: string): (n: nat)
  {
    if s == [] then 0
    else
      var c := s[|s| - 1] as int;
      Utf8Length(s[..|s| - 1]) + (if c < 0x80 then 1 else if c < 0x800 then 2 else if c < 0x10000 then 3 else 4)
  }

  /** Every character takes at least one byte. */
  lemma {:induction false} LengthAtMostUtf8(s: string)
    ensures |s| <= Utf8Length(s)
  {
    if s != [] {
      LengthAtMostUtf8(s[..|s| - 1]);
    }
  }

  /** Characters of the Base64 text `EncryptSecret` produces (and the migration test accepts). */
  predicate IsBase64Char(c: char)
  {
    IsLetterOrDigit(c) || c == '+' || c == '/' || c == '='
  }

  predicate AllBase64(s: string)
  {
    forall i :: 0 <= i < |s| ==> IsBase64Char(s[i])
  }

  /** Length of the Base64 text of a 16-byte IV followed by the PKCS#7-padded AES-CBC
      ciphertext of `n` plaintext bytes. */
  function AesBase64Length(n: nat): (r: nat)
    ensures r >= 44 && r % 4 == 0 && r > n
    ensures n <= 15 ==> r == 44
    ensures n >= 16 ==> r >= 64
  {
    AesBase64LengthBounds(n, n / 16);
    4 * ((32 + 16 * (n / 16) + 2) / 3)
  }

  lemma AesBase64LengthBounds(n: nat, q: nat)
    requires q == n / 16
    ensures var r := 4 * ((32 + 16 * q + 2) / 3);
            r >= 44 && r % 4 == 0 && r > n && (n <= 15 ==> r == 44) && (n >= 16 ==> r >= 64)
  {
    var bytes := 32 + 16 * q;
    var t := (bytes + 2) / 3;
    assert n < 16 * q + 16;
    assert 3 * t <= bytes + 2 < 3 * t + 3;
    assert t >= 11;
    assert 4 * t > bytes;
    if n <= 15 {
      assert q == 0 && t == 11;
    } else {
      assert q >= 1 && t >= 16;
    }
  }

  /** What the model requires of the cipher: decryption inverts encryption, and the ciphertext
      is Base64 text of the length AES-CBC with a prefixed IV gives. */
  ghost predicate WellBehaved(c: Crypto)
  {
    forall p :: !IsBlank(p) ==>
      && c.decrypt(c.encrypt(p)) == Some(p)
      && |c.encrypt(p)| == AesBase64Length(Utf8Length(p))
      && AllBase64(c.encrypt(p))
  }

  /** `EncryptSecret` / `EncryptSecretValue`: null or white space passes through. */
  function EncryptSecret(c: Crypto, plain: string): (r: string)
    ensures IsBlank(plain) ==> r == plain
    ensures WellBehaved(c) && !IsBlank(plain) ==> |r| >= 44 && AllBase64(r)
  {
    if IsBlank(plain) then plain else c.encrypt(plain)
  }

  /** `DecryptSecret`: null or white space passes through, and so does anything that fails to
      decrypt. */
  function DecryptSecret(c: Crypto, cipher: string): (r: string)
    ensures IsBlank(cipher) || c.decrypt(cipher).None? ==> r == cipher
  {
    if IsBlank(cipher) then cipher
    else match c.decrypt(cipher)
      case Some(p) => p
      case None => cipher
  }

  /** Base64 text is never white space. */
  lemma Base64NotBlank(s: string)
    requires AllBase64(s) && |s| > 0
    ensures !IsBlank(s)
  {
    assert IsBase64Char(s[0]);
  }

  /** A stored secret decrypts to what was set, white space included. */
  lemma SecretRoundTrip(c: Crypto, p: string)
    requires WellBehaved(c)
    ensures DecryptSecret(c, EncryptSecret(c, p)) == p
  {
    if !IsBlank(p) {
      Base64NotBlank(c.encrypt(p));
    }
  }

  /* ---------------------------------------------------------------------------------------
     The migration test in Load
     --------------------------------------------------------------------------------------- */

  /** `AsWritten` is the test in `Load`: more than 50 characters, all Base64. `Corrected`
      accepts from 44, the length of the shortest ciphertext `EncryptSecret` produces. */
  datatype Recogniser = AsWritten | Corrected

  /** `isLikelyEncrypted` as written. */
  predicate IsLikelyEncrypted(s: string)
  {
    |s| > 50 && AllBase64(s)
  }

  /** The test the migration needs: accepts every ciphertext `EncryptSecret` produces. */
  predicate LooksEncrypted(s: string)
  {
    |s| >= 44 && AllBase64(s)
  }

  predicate Recognised(rec: Recogniser, s: string)
  {
    match rec
    case AsWritten => IsLikelyEncrypted(s)
    case Corrected => LooksEncrypted(s)
  }

  /** A secret the migration rewrites: present, not blank, not taken for ciphertext. */
  predicate NeedsMigration(rec: Recogniser, secret: Option<string>)
  {
    secret.Some? && !IsBlank(secret.value) && !Recognised(rec, secret.value)
  }

  function MigrateSecret(c: Crypto, rec: Recogniser, secret: Option<string>): (r: Option<string>)
    ensures !NeedsMigration(rec, secret) ==> r == secret
    ensures r.Some? <==> secret.Some?
  {
    if NeedsMigration(rec, secret) then Some(EncryptSecret(c, secret.value)) else secret
  }

  /** A secret the migration rewrites still decrypts to what it was. */
  lemma MigrationKeepsSecret(c: Crypto, rec: Recogniser, secret: Option<string>)
    requires WellBehaved(c) && NeedsMigration(rec, secret)
    ensures MigrateSecret(c, rec, secret) != secret
    ensures DecryptSecret(c, MigrateSecret(c, rec, secret).value) == secret.value
  {
    SecretRoundTrip(c, secret.value);
    LengthAtMostUtf8(secret.value);
  }

  function MigrateEntry(c: Crypto, rec: Recogniser, e: Entry): (r: Entry)
    ensures r.name == e.name && r.settings.email == e.settings.email
  {
    if NeedsMigration(rec, e.settings.secretCode) then
      e.(settings := e.settings.(secretCode := Some(EncryptSecret(c, e.settings.secretCode.value))))
    else e
  }

  /** The projects after the migration loop. */
  function MigrateAll(c: Crypto, rec: Recogniser, ps: map<string, Entry>): (r: map<string, Entry>)
    ensures r.Keys == ps.Keys
    ensures forall k :: k in ps ==> r[k].name == ps[k].name && r[k].settings.email == ps[k].settings.email
    ensures forall k :: k in ps ==> r[k].settings.secretCode == MigrateSecret(c, rec, ps[k].settings.secretCode)
    ensures KeysFolded(ps) ==> KeysFolded(r)
  {
    map k | k in ps :: MigrateEntry(c, rec, ps[k])
  }

  predicate NeedsSave(rec: Recogniser, ps: map<string, Entry>)
  {
    exists k :: k in ps && NeedsMigration(rec, ps[k].settings.secretCode)
  }

  /** The loop's state: the keys still in `todo` not yet visited. */
  function PartlyMigrated(c: Crypto, rec: Recogniser, ps: map<string, Entry>, todo: set<string>): map<string, Entry>
  {
    map k | k in ps :: if k in todo then ps[k] else MigrateEntry(c, rec, ps[k])
  }

  predicate NeedsSaveAmong(rec: Recogniser, ps: map<string, Entry>, visited: set<string>)
  {
    exists k :: k in ps && k in visited && NeedsMigration(rec, ps[k].settings.secretCode)
  }

  lemma MigratedNone(c: Crypto, rec: Recogniser, ps: map<string, Entry>)
    ensures PartlyMigrated(c, rec, ps, ps.Keys) == ps
    ensures !NeedsSaveAmong(rec, ps, ps.Keys - ps.Keys)
  {
  }

  lemma MigratedAll(c: Crypto, rec: Recogniser, ps: map<string, Entry>)
    ensures PartlyMigrated(c, rec, ps, {}) == MigrateAll(c, rec, ps)
    ensures NeedsSaveAmong(rec, ps, ps.Keys - {}) <==> NeedsSave(rec, ps)
  {
  }

  lemma MigrateStep(c: Crypto, rec: Recogniser, ps: map<string, Entry>, todo: set<string>, k: string)
    requires k in todo && todo <= ps.Keys
    ensures var e := PartlyMigrated(c, rec, ps, todo)[k];
            && e == ps[k]
            && PartlyMigrated(c, rec, ps, todo)[k := MigrateEntry(c, rec, e)] == PartlyMigrated(c, rec, ps, todo - {k})
            && (!NeedsMigration(rec, e.settings.secretCode) ==> PartlyMigrated(c, rec, ps, todo) == PartlyMigrated(c, rec, ps, todo - {k}))
            && (NeedsSaveAmong(rec, ps, ps.Keys - (todo - {k})) <==>
                  NeedsSaveAmong(rec, ps, ps.Keys - todo) || NeedsMigration(rec, e.settings.secretCode))
  {
    var before := ps.Keys - todo;
    assert ps.Keys - (todo - {k}) == before + {k};
  }

  function Migrated(c: Crypto, rec: Recogniser, s: ConfigState): ConfigState
  {
    s.(projects := MigrateAll(c, rec, s.projects))
  }

  /** `ConfigService.Load` with the migration test `rec`: `Load(c, AsWritten, file)` is the
      program, `Load(c, Corrected, file)` the intended one. `file` is the deserialised file,
      `None` when there is none (a document holding JSON `null` reads as `Some(DefaultState)`).
      `saved` says whether the migrated configuration was written back. */
  method Load(c: Crypto, rec: Recogniser, file: Option<ConfigState>) returns (config: QuickCodeConfig, saved: bool)
    requires file.Some? ==> KeysFolded(file.value.projects)
    ensures fresh(config) && config.Valid()
    ensures file.None? ==> config.Current() == DefaultState && !saved
    ensures file.Some? ==> config.Current() == Migrated(c, rec, file.value)
    ensures file.Some? ==> (saved <==> NeedsSave(rec, file.value.projects))
  {
    config := new QuickCodeConfig();
    saved := false;
    if file.Some? {
      config.apiUrl := file.value.apiUrl;
      config.projects := file.value.projects;
      saved := config.MigrateSecrets(c, rec);
    }
  }

  /** With the corrected test, a ciphertext `EncryptSecret` produced is left alone. */
  lemma StoredSecretSurvivesLoad(c: Crypto, p: string)
    requires WellBehaved(c)
    ensures MigrateSecret(c, Corrected, Some(EncryptSecret(c, p))) == Some(EncryptSecret(c, p))
  {
    if !IsBlank(p) {
      assert LooksEncrypted(c.encrypt(p));
    }
  }

  /** With the corrected test, migrating twice is migrating once, and the file is saved exactly
      when the migration changes something. */
  lemma {:induction false} MigrationSettles(c: Crypto, ps: map<string, Entry>)
    requires WellBehaved(c)
    ensures MigrateAll(c, Corrected, MigrateAll(c, Corrected, ps)) == MigrateAll(c, Corrected, ps)
    ensures NeedsSave(Corrected, ps) <==> MigrateAll(c, Corrected, ps) != ps
  {
    var once := MigrateAll(c, Corrected, ps);
    forall k | k in once
      ensures MigrateEntry(c, Corrected, once[k]) == once[k]
    {
      EntrySettles(c, ps[k]);
    }
    MigrateAllIdentity(c, Corrected, once);
    if NeedsSave(Corrected, ps) {
      var k :| k in ps && NeedsMigration(Corrected, ps[k].settings.secretCode);
      EntrySettles(c, ps[k]);
      assert once[k] != ps[k];
    } else {
      MigrateAllIdentity(c, Corrected, ps);
    }
  }

  /** A migration that changes no entry changes nothing. */
  lemma MigrateAllIdentity(c: Crypto, rec: Recogniser, ps: map<string, Entry>)
    requires forall k :: k in ps ==> MigrateEntry(c, rec, ps[k]) == ps[k]
    ensures MigrateAll(c, rec, ps) == ps
  {
  }

  /** One entry: a second migration changes nothing, and a migration that was needed changes
      the entry. */
  lemma EntrySettles(c: Crypto, e: Entry)
    requires WellBehaved(c)
    ensures var once := MigrateEntry(c, Corrected, e);
            && MigrateEntry(c, Corrected, once) == once
            && (NeedsMigration(Corrected, e.settings.secretCode) ==> once != e)
  {
    var s := e.settings.secretCode;
    if NeedsMigration(Corrected, s) {
      assert LooksEncrypted(c.encrypt(s.value));
      assert MigrateEntry(c, Corrected, e).settings.secretCode == Some(c.encrypt(s.value));
    }
  }

  /** The test as written: a secret of at most 15 UTF-8 bytes encrypts to 44 characters, which
      the test does not take for ciphertext, so the next `Load` encrypts it once more, and the
      decryption then yields the first ciphertext rather than the secret. The second ciphertext
      is long enough to pass the test, so later loads leave it alone. */
  lemma ShortSecretReencrypted(c: Crypto, p: string)
    requires WellBehaved(c) && !IsBlank(p) && Utf8Length(p) <= 15
    ensures var stored := EncryptSecret(c, p);
            && |stored| == 44
            && MigrateSecret(c, AsWritten, Some(stored)) == Some(c.encrypt(stored))
            && DecryptSecret(c, c.encrypt(stored)) == stored != p
            && MigrateSecret(c, AsWritten, Some(c.encrypt(stored))) == Some(c.encrypt(stored))
  {
    var stored := c.encrypt(p);
    LengthAtMostUtf8(p);
    Base64NotBlank(stored);
    assert NeedsMigration(AsWritten, Some(stored));
    SecretRoundTrip(c, stored);
    LengthAtMostUtf8(stored);
    assert !NeedsMigration(AsWritten, Some(c.encrypt(stored)));
  }

  /* ---------------------------------------------------------------------------------------
     The `config` command
     --------------------------------------------------------------------------------------- */

  /** The settings stored for a project, or empty ones when it has none. */
  function Stored(s: ConfigState, name: string): ProjectConfig
  {
    match Lookup(s.projects, name) case Some(e) => e case None => EmptyProject
  }

  /** `ApplySet` on a value: the key is trimmed; without a project only "api_url" is
      accepted; with one, "email" and "secret_code" (encrypted) are set on the existing or a
      new entry; any other key changes nothing. */
  function AfterSet(s: ConfigState, c: Crypto, project: Option<string>, key: string, value: string): ConfigState
  {
    var k := Trim(key);
    if IsNullOrBlank(project) then
      if k == "api_url" then s.(apiUrl := value) else s
    else
      var settings := Stored(s, project.value);
      if k == "email" then s.(projects := Store(s.projects, project.value, settings.(email := Some(value))))
      else if k == "secret_code" then
        s.(projects := Store(s.projects, project.value, settings.(secretCode := Some(EncryptSecret(c, value)))))
      else s
  }

  /** `ApplyUnset` on a value: without a project "api_url" returns to the default; a missing
      project changes nothing; otherwise the named field is cleared and the entry dropped when
      neither field is left, whatever the key. */
  function AfterUnset(s: ConfigState, project: Option<string>, key: string): ConfigState
  {
    if IsNullOrBlank(project) then
      if key == "api_url" then s.(apiUrl := DefaultApiUrl) else s
    else match Lookup(s.projects, project.value)
      case None => s
      case Some(settings) =>
        var cleared :=
          if key == "email" then settings.(email := None)
          else if key == "secret_code" then settings.(secretCode := None)
          else settings;
        if IsNullOrBlank(cleared.email) && IsNullOrBlank(cleared.secretCode) then
          s.(projects := Remove(s.projects, project.value))
        else s.(projects := Store(s.projects, project.value, cleared))
  }

  /** `ApplySet` on the configuration object. */
  method ApplySet(config: QuickCodeConfig, c: Crypto, project: Option<string>, key: string, value: string)
    requires config.Valid()
    modifies config
    ensures config.Valid()
    ensures config.Current() == AfterSet(old(config.Current()), c, project, key, value)
  {
    var k := Trim(key);
    if IsNullOrBlank(project) {
      if k == "api_url" {
        config.apiUrl := value;
      }
      return;
    }
    var settings := match config.TryGet(project.value) case Some(e) => e case None => EmptyProject;
    if k == "email" {
      settings := settings.(email := Some(value));
    } else if k == "secret_code" {
      settings := settings.(secretCode := Some(EncryptSecret(c, value)));
    } else {
      return;
    }
    config.SetProject(project.value, settings);
  }

  /** `ApplyUnset` on the configuration object. */
  method ApplyUnset(config: QuickCodeConfig, project: Option<string>, key: string)
    requires config.Valid()
    modifies config
    ensures config.Valid()
    ensures config.Current() == AfterUnset(old(config.Current()), project, key)
  {
    if IsNullOrBlank(project) {
      if key == "api_url" {
        config.apiUrl := DefaultApiUrl;
      }
      return;
    }
    var name := project.value;
    var found := config.TryGet(name);
    if found.None? {
      return;
    }
    var settings := found.value;
    ghost var before := config.projects;
    if key == "email" {
      settings := settings.(email := None);
      config.SetProject(name, settings);
    } else if key == "secret_code" {
      settings := settings.(secretCode := None);
      config.SetProject(name, settings);
    } else {
      assert before == Store(before, name, settings);
    }
    if IsNullOrBlank(settings.email) && IsNullOrBlank(settings.secretCode) {
      assert Remove(config.projects, name) == Remove(before, name);
      var _ := config.RemoveProject(name);
    }
  }

  /** `ResolveValue`: what `config --get key` prints (`None` is "<null>"). */
  function ResolveValue(s: ConfigState, project: Option<string>, key: string): (r: Option<string>)
    ensures key !in {"api_url", "email", "secret_code"} ==> r.None?
    ensures key == "secret_code" && r.Some? ==> r.value == Mask
    ensures IsNullOrBlank(project) ==> (r.Some? <==> key == "api_url") && (r.Some? ==> r.value == s.apiUrl)
    ensures !IsNullOrBlank(project) ==>
              match Lookup(s.projects, project.value)
              case None => r.None?
              case Some(settings) =>
                && (key == "api_url" ==> r.None?)
                && (key == "email" ==> r == settings.email)
                && (key == "secret_code" ==> (r.Some? <==> settings.secretCode.Some?))
  {
    if IsNullOrBlank(project) then
      if key == "api_url" then Some(s.apiUrl) else None
    else match Lookup(s.projects, project.value)
      case None => None
      case Some(settings) =>
        if key == "email" then settings.email
        else if key == "secret_code" then (if settings.secretCode.Some? then Some(Mask) else None)
        else None
  }

  /** Without a project only "api_url" moves, and only "api_url" sets it; any key the command
      does not know leaves the whole configuration as it was. */
  lemma SetGlobalOrUnknown(s: ConfigState, c: Crypto, project: Option<string>, key: string, value: string)
    ensures IsNullOrBlank(project) ==>
              AfterSet(s, c, project, key, value) == if Trim(key) == "api_url" then s.(apiUrl := value) else s
    ensures Trim(key) !in {"api_url", "email", "secret_code"} ==> AfterSet(s, c, project, key, value) == s
  {
  }

  /** Setting a project field: `get` then shows the e-mail as given, or the mask for the
      secret; the other field, the API address and every other project stay as they were. */
  lemma {:induction false} SetProjectField(s: ConfigState, c: Crypto, p: string, key: string, value: string)
    requires !IsBlank(p) && Trim(key) in {"email", "secret_code"}
    ensures var r := AfterSet(s, c, Some(p), key, value);
            && r.apiUrl == s.apiUrl
            && (Trim(key) == "email" ==>
                  ResolveValue(r, Some(p), "email") == Some(value)
                  && ResolveValue(r, Some(p), "secret_code") == ResolveValue(s, Some(p), "secret_code"))
            && (Trim(key) == "secret_code" ==>
                  ResolveValue(r, Some(p), "secret_code") == Some(Mask)
                  && ResolveValue(r, Some(p), "email") == ResolveValue(s, Some(p), "email"))
            && forall n :: !EqualsIgnoreCase(n, p) ==> Lookup(r.projects, n) == Lookup(s.projects, n)
  {
    var r := AfterSet(s, c, Some(p), key, value);
    assert Lookup(r.projects, p).Some?;
  }

  /** Storing a new entry and removing it again gives the map back. */
  lemma StoreThenRemove(ps: map<string, Entry>, name: string, settings: ProjectConfig)
    requires Lookup(ps, name).None?
    ensures Remove(Store(ps, name, settings), name) == ps
  {
    assert Store(ps, name, settings) - {Fold(name)} == ps;
  }

  /** On a project that was not stored, unsetting the field just set restores the
      configuration: the entry is left with neither field and is dropped. */
  lemma SetThenUnset(s: ConfigState, c: Crypto, p: string, key: string, value: string)
    requires !IsBlank(p) && (Trim(key) == "email" || Trim(key) == "secret_code") && Lookup(s.projects, p).None?
    ensures AfterUnset(AfterSet(s, c, Some(p), key, value), Some(p), Trim(key)) == s
  {
    var settings := NewSettings(c, Trim(key), value);
    SetNewProject(s, c, p, key, value);
    var r := s.(projects := Store(s.projects, p, settings));
    UnsetOnlyField(r, p, Trim(key), settings);
    StoreThenRemove(s.projects, p, settings);
  }

  /** The entry `config --set` creates for a project that had none. */
  function NewSettings(c: Crypto, key: string, value: string): ProjectConfig
  {
    if key == "email" then EmptyProject.(email := Some(value))
    else EmptyProject.(secretCode := Some(EncryptSecret(c, value)))
  }

  lemma SetNewProject(s: ConfigState, c: Crypto, p: string, key: string, value: string)
    requires !IsBlank(p) && (Trim(key) == "email" || Trim(key) == "secret_code") && Lookup(s.projects, p).None?
    ensures AfterSet(s, c, Some(p), key, value) == s.(projects := Store(s.projects, p, NewSettings(c, Trim(key), value)))
  {
  }

  lemma UnsetOnlyField(r: ConfigState, p: string, key: string, settings: ProjectConfig)
    requires !IsBlank(p) && Lookup(r.projects, p) == Some(settings)
    requires (key == "email" && settings.secretCode.None?) || (key == "secret_code" && settings.email.None?)
    ensures AfterUnset(r, Some(p), key) == r.(projects := Remove(r.projects, p))
  {
  }

  /** Unsetting with an unknown key still drops an entry that holds neither field, and leaves
      any other entry alone. */
  lemma UnsetUnknownKey(s: ConfigState, p: string, key: string)
    requires !IsBlank(p) && key !in {"api_url", "email", "secret_code"}
    ensures var r := AfterUnset(s, Some(p), key);
            && (match Lookup(s.projects, p)
                case None => r == s
                case Some(settings) =>
                  if IsNullOrBlank(settings.email) && IsNullOrBlank(settings.secretCode)
                  then Lookup(r.projects, p).None? && r.projects.Keys == s.projects.Keys - {Fold(p)}
                  else r == s)
  {
    match Lookup(s.projects, p)
    case None =>
    case Some(settings) =>
      assert Store(s.projects, p, settings) == s.projects;
  }

  /** `unset api_url` without a project restores the address a fresh configuration has. */
  lemma UnsetApiUrl(s: ConfigState)
    ensures AfterUnset(s, None, "api_url").apiUrl == DefaultState.apiUrl
    ensures ResolveValue(AfterUnset(s, None, "api_url"), None, "api_url") == Some(DefaultApiUrl)
  {
  }

  /* ---------------------------------------------------------------------------------------
     Credentials
     --------------------------------------------------------------------------------------- */

  datatype Credentials = Credentials(projectName: string, email: string, secret: string)

  datatype CredentialError = ProjectNameRequired | EmailRequired | SecretRequired

  /** `ResolveProjectCredentials`: explicit values win over stored ones (a blank explicit
      value does not fall back), each must be non-blank, and the secret is decrypted. */
  function ResolveProjectCredentials(s: ConfigState, c: Crypto, projectName: Option<string>,
                                     email: Option<string>, secret: Option<string>): (r: Result<Credentials, CredentialError>)
    ensures r == Err(ProjectNameRequired) <==> IsNullOrBlank(projectName)
    ensures r.Ok? ==>
              && r.value.projectName == projectName.value
              && !IsBlank(r.value.email)
              && (email.Some? ==> r.value.email == email.value)
    ensures email.Some? && IsBlank(email.value) ==> r.Err?
    ensures secret.Some? && IsBlank(secret.value) ==> r.Err?
    ensures !IsNullOrBlank(projectName) ==>
              var stored := Stored(s, projectName.value);
              var e := if email.Some? then email else stored.email;
              var sc := if secret.Some? then secret else stored.secretCode;
              && (r == Err(EmailRequired) <==> IsNullOrBlank(e))
              && (r == Err(SecretRequired) <==> !IsNullOrBlank(e) && IsNullOrBlank(sc))
              && (r.Ok? ==> r.value == Credentials(projectName.value, e.value, DecryptSecret(c, sc.value)))
  {
    if IsNullOrBlank(projectName) then Err(ProjectNameRequired)
    else
      var stored := Stored(s, projectName.value);
      var resolvedEmail := if email.Some? then email else stored.email;
      if IsNullOrBlank(resolvedEmail) then Err(EmailRequired)
      else
        var encrypted := if secret.Some? then secret else stored.secretCode;
        if IsNullOrBlank(encrypted) then Err(SecretRequired)
        else Ok(Credentials(projectName.value, resolvedEmail.value, DecryptSecret(c, encrypted.value)))
  }

  /** After setting the e-mail and then the secret of a project, its entry holds exactly
      those two. */
  lemma SetEmailAndSecret(s: ConfigState, c: Crypto, p: string, ek: string, sk: string, e: string, secret: string)
    requires !IsBlank(p) && Trim(ek) == "email" && Trim(sk) == "secret_code"
    ensures var s1 := AfterSet(AfterSet(s, c, Some(p), ek, e), c, Some(p), sk, secret);
            Lookup(s1.projects, p) == Some(ProjectConfig(Some(e), Some(EncryptSecret(c, secret))))
  {
    var s0 := AfterSet(s, c, Some(p), ek, e);
    assert Lookup(s0.projects, p).Some? && Lookup(s0.projects, p).value.email == Some(e);
  }

  /** A migration reaches an entry through any casing of its name. */
  lemma LookupMigrated(c: Crypto, rec: Recogniser, ps: map<string, Entry>, name: string, settings: ProjectConfig)
    requires Lookup(ps, name) == Some(settings)
    ensures Lookup(MigrateAll(c, rec, ps), name) == Some(settings.(secretCode := MigrateSecret(c, rec, settings.secretCode)))
  {
  }

  /** What `config --set` stores comes back from `ResolveProjectCredentials` after a `Load`
      with the corrected test: the name, the e-mail and the secret as given. */
  lemma SetLoadResolve(s: ConfigState, c: Crypto, p: string, ek: string, sk: string, e: string, secret: string)
    requires WellBehaved(c) && !IsBlank(p) && !IsBlank(e) && !IsBlank(secret)
    requires Trim(ek) == "email" && Trim(sk) == "secret_code"
    ensures var s1 := AfterSet(AfterSet(s, c, Some(p), ek, e), c, Some(p), sk, secret);
            ResolveProjectCredentials(Migrated(c, Corrected, s1), c, Some(p), None, None)
              == Ok(Credentials(p, e, secret))
  {
    var stored := EncryptSecret(c, secret);
    var s1 := AfterSet(AfterSet(s, c, Some(p), ek, e), c, Some(p), sk, secret);
    SetEmailAndSecret(s, c, p, ek, sk, e, secret);
    StoredSecretSurvivesLoad(c, secret);
    LookupMigrated(c, Corrected, s1.projects, p, ProjectConfig(Some(e), Some(stored)));
    Base64NotBlank(stored);
    ResolveStored(Migrated(c, Corrected, s1), c, p, e, stored);
    SecretRoundTrip(c, secret);
  }

  /** A project stored with an e-mail and a secret resolves to them, the secret decrypted. */
  lemma ResolveStored(s: ConfigState, c: Crypto, p: string, e: string, stored: string)
    requires !IsBlank(p) && !IsBlank(e) && !IsBlank(stored)
    requires Lookup(s.projects, p) == Some(ProjectConfig(Some(e), Some(stored)))
    ensures ResolveProjectCredentials(s, c, Some(p), None, None) == Ok(Credentials(p, e, DecryptSecret(c, stored)))
  {
  }

  /** The same sequence with the test as written, for a secret of at most 15 UTF-8 bytes: the
      credentials carry the first ciphertext instead of the secret. */
  lemma SetLoadResolveAsWritten(s: ConfigState, c: Crypto, p: string, ek: string, sk: string, e: string, secret: string)
    requires WellBehaved(c) && !IsBlank(p) && !IsBlank(e) && !IsBlank(secret) && Utf8Length(secret) <= 15
    requires Trim(ek) == "email" && Trim(sk) == "secret_code"
    ensures var s1 := AfterSet(AfterSet(s, c, Some(p), ek, e), c, Some(p), sk, secret);
            var r := ResolveProjectCredentials(Migrated(c, AsWritten, s1), c, Some(p), None, None);
            r == Ok(Credentials(p, e, EncryptSecret(c, secret))) && r.value.secret != secret
  {
    var stored := EncryptSecret(c, secret);
    var s1 := AfterSet(AfterSet(s, c, Some(p), ek, e), c, Some(p), sk, secret);
    SetEmailAndSecret(s, c, p, ek, sk, e, secret);
    ShortSecretReencrypted(c, secret);
    LookupMigrated(c, AsWritten, s1.projects, p, ProjectConfig(Some(e), Some(stored)));
    Base64NotBlank(c.encrypt(stored));
    ResolveStored(Migrated(c, AsWritten, s1), c, p, e, c.encrypt(stored));
  }
}
