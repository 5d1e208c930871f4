/** The checks run on the connection form before a mount. */
module Validation {
  import opened Text
  import opened Descriptors

  /** One error per check, in the order the checks run. */
  datatype ValidationError =
    | ServerRequired
    | UsernameRequired
    | LocalDirRequired
    | PasswordRequired
    | KeyFileRequired
    | KeyFileNotFound(path: string)
    | LocalDirNotCreated(path: string)

  datatype Validation = Accepted | Rejected(error: ValidationError)

  /** Position of a check in the sequence the validation runs. */
  function Rank(e: ValidationError): nat {
    match e
    case ServerRequired => 0
    case UsernameRequired => 1
    case LocalDirRequired => 2
    case PasswordRequired => 3
    case KeyFileRequired => 4
    case KeyFileNotFound(_) => 5
    case LocalDirNotCreated(_) => 6
  }

  /** Whether check `e` fails on `d`, judged on its own. The required
      fields are blank-checked after stripping; the password is not
      stripped, so a password of spaces passes. A missing local directory is
      a failure only when it cannot be created. */
  predicate Fails(d: Descriptor, fs: FileSystem, e: ValidationError) {
    match e
    case ServerRequired => IsBlank(d.server)
    case UsernameRequired => IsBlank(d.username)
    case LocalDirRequired => IsBlank(d.localDir)
    case PasswordRequired => UsesPassword(d) && d.password == []
    case KeyFileRequired => UsesKey(d) && IsBlank(d.keyFile)
    case KeyFileNotFound(path) => UsesKey(d) && path == Strip(d.keyFile) && !fs.pathExists(path)
    case LocalDirNotCreated(path) =>
      path == Strip(d.localDir) && !fs.pathExists(path) && !fs.canCreateDir(path)
  }

  /** The validation step of a mount: the checks run one after another and
      the first that fails is reported; nothing is aggregated. */
  function Validate(d: Descriptor, fs: FileSystem): Validation {
    if IsBlank(d.server) then Rejected(ServerRequired)
    else if IsBlank(d.username) then Rejected(UsernameRequired)
    else if IsBlank(d.localDir) then Rejected(LocalDirRequired)
    else if UsesPassword(d) && d.password == [] then Rejected(PasswordRequired)
    else if UsesKey(d) && IsBlank(d.keyFile) then Rejected(KeyFileRequired)
    else if UsesKey(d) && !fs.pathExists(Strip(d.keyFile)) then Rejected(KeyFileNotFound(Strip(d.keyFile)))
    else if !fs.pathExists(Strip(d.localDir)) && !fs.canCreateDir(Strip(d.localDir)) then
      Rejected(LocalDirNotCreated(Strip(d.localDir)))
    else Accepted
  }

  /** The form is accepted exactly when no check fails. */
  lemma ValidateAcceptsExactly(d: Descriptor, fs: FileSystem)
    ensures Validate(d, fs).Accepted? <==> forall e :: !Fails(d, fs, e)
  {
    var r := Validate(d, fs);
    if r.Rejected? {
      assert Fails(d, fs, r.error);
    }
  }

  /** A rejection names a failing check, and no failing check comes before
      it: the first failure wins. */
  lemma ValidateReportsFirstFailure(d: Descriptor, fs: FileSystem)
    requires Validate(d, fs).Rejected?
    ensures Fails(d, fs, Validate(d, fs).error)
    ensures forall e :: Fails(d, fs, e) ==> Rank(Validate(d, fs).error) <= Rank(e)
  {
  }

  /** In key mode an accepted form names a key file that exists; an
      unrecognised authentication value is checked for neither a password
      nor a key. */
  lemma AcceptedCredentials(d: Descriptor, fs: FileSystem)
    requires Validate(d, fs).Accepted?
    ensures !IsBlank(d.server) && !IsBlank(d.username) && !IsBlank(d.localDir)
    ensures UsesPassword(d) ==> d.password != []
    ensures UsesKey(d) ==> !IsBlank(d.keyFile) && fs.pathExists(Strip(d.keyFile))
  {
  }
}
