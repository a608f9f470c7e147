/**
 * The credential gate (auth.py): one stored password digest, kept as the
 * `password_hash` field of a JSON file that is created with the digest of a
 * default password on first use. The digest function (SHA-256 rendered in
 * hex in the source) is left abstract: it is the `hash` a `Gate` is built
 * with.
 */
module Auth {
  import opened Wrappers

  /** The password a fresh installation accepts. */
  const DefaultPassword: string := "admin123"

  /** What `get_default_password_info` returns while the default password is in force. */
  const DefaultWarning: string :=
    "\U{26A0}\U{FE0F} You are using the default password: **admin123**. Please change it immediately!"

  /** Distinct passwords have distinct digests: what a collision-resistant digest gives in practice. */
  ghost predicate Injective(hash: string -> string) {
    forall a, b :: hash(a) == hash(b) ==> a == b
  }

  class Gate {
    /** The digest function (`hash_password`). */
    const hash: string -> string
    /** The `password_hash` in the credential file; `None` while the file does not exist. */
    var stored: Option<string>

    constructor (hash: string -> string, existing: Option<string>)
      ensures this.hash == hash && stored == existing
    {
      this.hash := hash;
      stored := existing;
    }

    /** The digest in force: the stored one, or the default's for an absent file. */
    function Current(): string
      reads this
    {
      stored.GetOr(hash(DefaultPassword))
    }

    /** `ensure_auth_file`: create the file with the default digest if it is absent. */
    method EnsureAuthFile()
      modifies this
      ensures old(stored).None? ==> stored == Some(hash(DefaultPassword))
      ensures old(stored).Some? ==> stored == old(stored)
    {
      if stored.None? {
        stored := Some(hash(DefaultPassword));
      }
    }

    /** `verify_password`: the candidate's digest equals the stored one. */
    method VerifyPassword(password: string) returns (ok: bool)
      modifies this
      ensures ok == (hash(password) == old(Current()))
      ensures stored == Some(old(Current()))
    {
      EnsureAuthFile();
      ok := hash(password) == stored.value;
    }

    /** `change_password`: store the new digest only if the old password verifies. */
    method ChangePassword(oldPassword: string, newPassword: string) returns (ok: bool)
      modifies this
      ensures ok == (hash(oldPassword) == old(Current()))
      ensures stored == Some(if ok then hash(newPassword) else old(Current()))
      ensures ok ==> hash(newPassword) == Current()
      ensures ok ==> (hash(oldPassword) == Current() <==> hash(oldPassword) == hash(newPassword))
    {
      var verified := VerifyPassword(oldPassword);
      if !verified {
        return false;
      }
      EnsureAuthFile();
      stored := Some(hash(newPassword));
      ok := true;
    }

    /** `get_default_password_info`: the warning while the default password still verifies, else "". */
    method GetDefaultPasswordInfo() returns (info: string)
      modifies this
      ensures info == (if old(Current()) == hash(DefaultPassword) then DefaultWarning else "")
      ensures info != "" <==> old(Current()) == hash(DefaultPassword)
      ensures stored == Some(old(Current()))
    {
      EnsureAuthFile();
      var isDefault := VerifyPassword(DefaultPassword);
      info := if isDefault then DefaultWarning else "";
    }
  }

  /** On a fresh installation the default password verifies and the warning is shown. */
  method FreshInstallation(hash: string -> string) returns (defaultAccepted: bool, info: string)
    ensures defaultAccepted
    ensures info == DefaultWarning
  {
    var gate := new Gate(hash, None);
    defaultAccepted := gate.VerifyPassword(DefaultPassword);
    info := gate.GetDefaultPasswordInfo();
  }

  /**
   * Rotating the password: with a digest that separates passwords, after a
   * successful change the new password verifies, the old one no longer does,
   * and the default warning is gone unless the new password is the default.
   */
  method Rotation(hash: string -> string, current: string, newPassword: string)
    returns (changed: bool, newAccepted: bool, oldAccepted: bool, info: string)
    requires Injective(hash) && current != newPassword
    ensures changed && newAccepted && !oldAccepted
    ensures info == "" <==> newPassword != DefaultPassword
  {
    var gate := new Gate(hash, Some(hash(current)));
    changed := gate.ChangePassword(current, newPassword);
    newAccepted := gate.VerifyPassword(newPassword);
    oldAccepted := gate.VerifyPassword(current);
    info := gate.GetDefaultPasswordInfo();
  }

  /** A wrong current password changes nothing: the password that was in force still verifies. */
  method RejectedChange(hash: string -> string, current: string, attempt: string, newPassword: string)
    returns (changed: bool, currentAccepted: bool)
    requires hash(attempt) != hash(current)
    ensures !changed && currentAccepted
  {
    var gate := new Gate(hash, Some(hash(current)));
    changed := gate.ChangePassword(attempt, newPassword);
    currentAccepted := gate.VerifyPassword(current);
  }
}
