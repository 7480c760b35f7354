/**
 `CryptoState`: the server's password and data-encryption key. The key derivation (Argon2id, then HKDF,
 section 2 of RFC 5869), SHA-256 and AES-GCM (section 5 of RFC 5116) are symbolic: derived keys and digests
 are equal only for equal inputs, and a sealed key opens only under the key that sealed it. Random values and
 the success of the file write are parameters.
 */
module Crypto {
  import opened Options

  type Password = string
  type Salt = nat
  type Nonce = nat
  type Dek = nat

  /** The two HKDF outputs of one master key, and bytes that are neither. */
  datatype KeyBytes =
    | AuthKey(password: Password, salt: Salt)
    | Kek(password: Password, salt: Salt)
    | OtherBytes(content: nat)

  datatype Digest = Sha256(password: Password)

  datatype SealedDek = SealedDek(kek: KeyBytes, nonce: Nonce, dek: Dek)

  function Unseal(kek: KeyBytes, box: SealedDek): Option<Dek> {
    if box.kek == kek then Some(box.dek) else None
  }

  /**
   A field is `None` when it cannot be used: no base64, a salt Argon2 refuses, a nonce or a key of the wrong length.
   `setup_password` writes no such file, but an edited one may be loaded.
   */
  datatype AuthConfig = AuthConfig(salt: Option<Salt>, authKey: Option<KeyBytes>, box: Option<SealedDek>)

  function NewConfig(password: Password, salt: Salt, nonce: Nonce, dek: Dek): AuthConfig {
    AuthConfig(Some(salt), Some(AuthKey(password, salt)), Some(SealedDek(Kek(password, salt), nonce, dek)))
  }

  /** `auth.json` */
  datatype AuthFile = Missing | Invalid | Stored(config: AuthConfig)

  /** The fields of `CryptoState`, and the file. */
  datatype State = State(file: AuthFile, config: Option<AuthConfig>, dek: Option<Dek>, cache: Option<Digest>)

  /** How a call ended; `Failed` is an error, `Refused` is `Ok(false)`. */
  datatype Outcome = Accepted | Refused | Failed

  // ----- what each method does ----------------------------------------------------------------------

  /** An unreadable file stops the start, so that it is not overwritten by another setup. */
  function Load(file: AuthFile): Option<State> {
    match file
    case Missing => Some(State(file, None, None, None))
    case Invalid => None
    case Stored(config) => Some(State(file, Some(config), None, None))
  }

  function Setup(s: State, password: Password, salt: Salt, nonce: Nonce, dek: Dek, written: bool): (State, Outcome) {
    if s.config.Some? || !written then
      (s, Failed)
    else
      var config := NewConfig(password, salt, nonce, dek);
      (State(Stored(config), Some(config), Some(dek), Some(Sha256(password))), Accepted)
  }

  predicate FastPath(s: State, password: Password) {
    s.cache == Some(Sha256(password))
  }

  function SlowPath(s: State, config: AuthConfig, password: Password): (State, Outcome) {
    if config.salt.None? || config.authKey.None? then
      (s, Failed)
    else if AuthKey(password, config.salt.value) != config.authKey.value then
      (s, Refused)
    else if config.box.None? then
      (s, Failed)
    else
      match Unseal(Kek(password, config.salt.value), config.box.value)
      case None => (s, Failed)
      case Some(dek) => (s.(dek := Some(dek), cache := Some(Sha256(password))), Accepted)
  }

  function Verify(s: State, password: Password): (State, Outcome) {
    if s.config.None? then (s, Failed)
    else if FastPath(s, password) then (s, Accepted)
    else SlowPath(s, s.config.value, password)
  }

  function Change(s: State, oldPassword: Password, newPassword: Password, salt: Salt, nonce: Nonce,
                  written: bool): (State, Outcome) {
    var (verified, outcome) := Verify(s.(dek := None, cache := None), oldPassword);
    if outcome.Failed? then
      (verified, Failed)
    else if outcome.Refused? then
      (verified.(dek := s.dek, cache := s.cache), Failed)
    else if verified.dek.None? || !written then
      (verified, Failed)
    else
      var config := NewConfig(newPassword, salt, nonce, verified.dek.value);
      (verified.(file := Stored(config), config := Some(config), cache := Some(Sha256(newPassword))), Accepted)
  }

  function Lock(s: State): State {
    s.(dek := None, cache := None)
  }

  // ----- the class ----------------------------------------------------------------------------------

  class CryptoState {
    var file: AuthFile
    var authConfig: Option<AuthConfig>
    var dek: Option<Dek>
    var passwordHashCache: Option<Digest>

    ghost function Value(): State
      reads this
    {
      State(file, authConfig, dek, passwordHashCache)
    }

    constructor (file: AuthFile, config: Option<AuthConfig>)
      ensures Value() == State(file, config, None, None)
    {
      this.file := file;
      authConfig := config;
      dek := None;
      passwordHashCache := None;
    }

    static method LoadFrom(file: AuthFile) returns (loaded: CryptoState?)
      ensures loaded != null ==> fresh(loaded) && Load(file) == Some(loaded.Value())
      ensures loaded == null ==> Load(file) == None
      // nothing is unlocked at the start, and an unreadable file stops it
      ensures loaded == null <==> file.Invalid?
      ensures loaded != null ==>
                && loaded.file == file && loaded.dek == None && loaded.passwordHashCache == None
                && loaded.authConfig == if file.Stored? then Some(file.config) else None
    {
      match file {
        case Missing => loaded := new CryptoState(file, None);
        case Invalid => loaded := null;
        case Stored(config) => loaded := new CryptoState(file, Some(config));
      }
    }

    /** The file is replaced by a rename, so a failed write leaves it as it was. */
    method AtomicWrite(config: AuthConfig, succeeds: bool)
      modifies this`file
      ensures file == if succeeds then Stored(config) else old(file)
    {
      if succeeds {
        file := Stored(config);
      }
    }

    method SetupPassword(password: Password, salt: Salt, nonce: Nonce, newDek: Dek,
                         written: bool) returns (outcome: Outcome)
      modifies this
      ensures (Value(), outcome) == Setup(old(Value()), password, salt, nonce, newDek, written)
    {
      if authConfig.Some? {
        return Failed;
      }
      var config := NewConfig(password, salt, nonce, newDek);
      AtomicWrite(config, written);
      if !written {
        return Failed;
      }
      authConfig := Some(config);
      dek := Some(newDek);
      passwordHashCache := Some(Sha256(password));
      outcome := Accepted;
    }

    method VerifyAndUnlock(password: Password) returns (outcome: Outcome)
      modifies this`dek, this`passwordHashCache
      ensures (Value(), outcome) == Verify(old(Value()), password)
    {
      if authConfig.None? {
        return Failed;
      }
      var config := authConfig.value;
      if passwordHashCache.Some? && Sha256(password) == passwordHashCache.value {
        return Accepted;
      }
      if config.salt.None? || config.authKey.None? {
        return Failed;
      }
      if AuthKey(password, config.salt.value) != config.authKey.value {
        return Refused;
      }
      if config.box.None? {
        return Failed;
      }
      var unsealed := Unseal(Kek(password, config.salt.value), config.box.value);
      if unsealed.None? {
        return Failed;
      }
      dek := unsealed;
      passwordHashCache := Some(Sha256(password));
      outcome := Accepted;
    }

    method ChangePassword(oldPassword: Password, newPassword: Password, salt: Salt, nonce: Nonce,
                          written: bool) returns (outcome: Outcome)
      modifies this
      ensures (Value(), outcome) == Change(old(Value()), oldPassword, newPassword, salt, nonce, written)
    {
      // Forget the session, so that the old password takes the slow path.
      var cachedHash, cachedDek := passwordHashCache, dek;
      passwordHashCache, dek := None, None;
      var verified := VerifyAndUnlock(oldPassword);
      if verified.Failed? {
        return Failed;
      }
      if verified.Refused? {
        passwordHashCache, dek := cachedHash, cachedDek;
        return Failed;
      }
      if dek.None? {
        return Failed;
      }
      var config := NewConfig(newPassword, salt, nonce, dek.value);
      AtomicWrite(config, written);
      if !written {
        return Failed;
      }
      authConfig := Some(config);
      passwordHashCache := Some(Sha256(newPassword));
      outcome := Accepted;
    }

    method LockSession()
      modifies this`dek, this`passwordHashCache
      ensures Value() == Lock(old(Value()))
      ensures dek == None && passwordHashCache == None
      ensures file == old(file) && authConfig == old(authConfig)
    {
      dek := None;
      passwordHashCache := None;
    }
  }
}
