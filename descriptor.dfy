/** The connection form the GUI collects for one mount, test or unmount, and
    the file-system questions the connection code asks about it. */
module Descriptors {

  /** The widgets' contents, as raw text: nothing here is stripped or parsed.
      `authMethod` is the radio-button variable: the buttons write "password"
      or "key", but recalling a saved profile can put any text in it. */
  datatype Descriptor = Descriptor(
    server: string,
    port: string,
    username: string,
    authMethod: string,
    password: string,
    keyFile: string,
    remoteDir: string,
    localDir: string,
    additionalOptions: string,
    allowOther: bool)

  const PasswordAuth: string := "password"
  const KeyAuth: string := "key"

  predicate UsesPassword(d: Descriptor) {
    d.authMethod == PasswordAuth
  }

  predicate UsesKey(d: Descriptor) {
    d.authMethod == KeyAuth
  }

  /** The two file-system questions the code asks, as oracles: whether a
      path exists (`os.path.exists`) and whether creating a directory with
      its parents (`os.makedirs`) would succeed. */
  datatype FileSystem = FileSystem(pathExists: string -> bool, canCreateDir: string -> bool)
}
