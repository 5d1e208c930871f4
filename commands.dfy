/** The argument vectors handed to the external tools: `sshfs` to mount,
    `ssh` to test the connection and `umount` to unmount. Every field is
    stripped first; a blank port becomes "22" and a blank remote directory
    "/". */
module Commands {
  import opened Text
  import opened Descriptors

  /** `port.strip() or "22"` */
  function PortArg(d: Descriptor): string {
    var p := Strip(d.port);
    if p == [] then "22" else p
  }

  /** `remote_dir.strip() or "/"` */
  function RemoteDirArg(d: Descriptor): string {
    var r := Strip(d.remoteDir);
    if r == [] then "/" else r
  }

  /** `user@server` from the stripped fields. */
  function Login(d: Descriptor): string {
    Strip(d.username) + "@" + Strip(d.server)
  }

  /** The options that keep a mount alive across network hiccups; every
      mount carries them. */
  const KeepAliveOptions: seq<string> := ["reconnect", "ServerAliveInterval=15", "ServerAliveCountMax=3"]

  /** Key mode names the identity file and turns password prompts off. */
  function AuthOptions(d: Descriptor): seq<string> {
    if UsesKey(d) then ["IdentityFile=" + Strip(d.keyFile), "PasswordAuthentication=no"] else []
  }

  function AllowOtherOptions(d: Descriptor): seq<string> {
    if d.allowOther then ["allow_other"] else []
  }

  /** The values of the `-o` options of a mount, in order: authentication,
      keep-alive, allow_other, then the user's whitespace-separated tokens. */
  function MountOptions(d: Descriptor): seq<string> {
    AuthOptions(d) + KeepAliveOptions + AllowOtherOptions(d) + Split(d.additionalOptions)
  }

  /** Each value preceded by its own `-o`, in the order given. */
  function OptionArgs(vs: seq<string>): (r: seq<string>)
    ensures |r| == 2 * |vs|
    ensures forall i :: 0 <= i < |vs| ==> r[2 * i] == "-o" && r[2 * i + 1] == vs[i]
  {
    if vs == [] then []
    else
      var rest := OptionArgs(vs[1..]);
      var r := ["-o", vs[0]] + rest;
      assert forall i :: 0 <= i < |vs| ==> r[2 * i] == "-o" && r[2 * i + 1] == vs[i] by {
        forall i | 0 <= i < |vs| ensures r[2 * i] == "-o" && r[2 * i + 1] == vs[i] {
          if i > 0 {
            assert r[2 * i] == rest[2 * (i - 1)];
            assert r[2 * i + 1] == rest[2 * (i - 1) + 1];
            assert vs[1..][i - 1] == vs[i];
          }
        }
      }
      r
  }

  lemma {:induction false} OptionArgsAppend(a: seq<string>, b: seq<string>)
    ensures OptionArgs(a + b) == OptionArgs(a) + OptionArgs(b)
  {
    if a == [] {
      assert a + b == b;
    } else {
      assert (a + b)[0] == a[0] && (a + b)[1..] == a[1..] + b;
      OptionArgsAppend(a[1..], b);
    }
  }

  /** The tool, `user@server:remote_dir`, the local directory and the port. */
  function MountHead(d: Descriptor): seq<string> {
    ["sshfs", Login(d) + ":" + RemoteDirArg(d), Strip(d.localDir), "-p", PortArg(d)]
  }

  /** The `sshfs` invocation for `d`: the head, then every option as a `-o`
      pair. */
  function MountArgv(d: Descriptor): seq<string> {
    MountHead(d) + OptionArgs(MountOptions(d))
  }

  /** Appending one `-o` pair to a command built so far. */
  lemma ExtendOption(cmd: seq<string>, base: seq<string>, given: seq<string>, v: string)
    requires cmd == base + OptionArgs(given)
    ensures cmd + ["-o", v] == base + OptionArgs(given + [v])
  {
    OptionArgsAppend(given, [v]);
    assert OptionArgs([v]) == ["-o", v];
  }

  /** The `-o` pairs of each fixed group of options, written out. */
  lemma FixedOptionArgs(d: Descriptor)
    ensures OptionArgs(AuthOptions(d))
         == if UsesKey(d) then ["-o", "IdentityFile=" + Strip(d.keyFile), "-o", "PasswordAuthentication=no"] else []
    ensures OptionArgs(KeepAliveOptions)
         == ["-o", "reconnect", "-o", "ServerAliveInterval=15", "-o", "ServerAliveCountMax=3"]
    ensures OptionArgs(AllowOtherOptions(d)) == if d.allowOther then ["-o", "allow_other"] else []
  {
  }

  /** Concatenation regrouped; one call per step keeps the proofs that
      regroup long commands small. */
  lemma Assoc<T>(a: seq<T>, b: seq<T>, c: seq<T>)
    ensures a + (b + c) == (a + b) + c
  {
  }

  /** `MountArgv` cut into the head and the `-o` pairs of each group. */
  lemma MountArgvGroups(d: Descriptor)
    ensures MountArgv(d) == MountHead(d) + OptionArgs(AuthOptions(d)) + OptionArgs(KeepAliveOptions)
                            + OptionArgs(AllowOtherOptions(d)) + OptionArgs(Split(d.additionalOptions))
  {
    var a, k, o, u := AuthOptions(d), KeepAliveOptions, AllowOtherOptions(d), Split(d.additionalOptions);
    var h, oa, ok, oo, ou := MountHead(d), OptionArgs(a), OptionArgs(k), OptionArgs(o), OptionArgs(u);
    OptionArgsAppend(a + k + o, u);
    OptionArgsAppend(a + k, o);
    OptionArgsAppend(a, k);
    assert OptionArgs(MountOptions(d)) == ((oa + ok) + oo) + ou;
    Assoc(h, (oa + ok) + oo, ou);
    Assoc(h, oa + ok, oo);
    Assoc(h, oa, ok);
  }

  /** The two steps that add the key options, as the GUI takes them. */
  lemma AuthSteps(d: Descriptor, c: seq<string>)
    ensures (if UsesKey(d) then c + ["-o", "IdentityFile=" + Strip(d.keyFile)] + ["-o", "PasswordAuthentication=no"] else c)
         == c + OptionArgs(AuthOptions(d))
  {
    FixedOptionArgs(d);
  }

  /** The three steps that add the keep-alive options. */
  lemma KeepAliveSteps(d: Descriptor, c: seq<string>)
    ensures c + ["-o", "reconnect"] + ["-o", "ServerAliveInterval=15"] + ["-o", "ServerAliveCountMax=3"]
         == c + OptionArgs(KeepAliveOptions)
  {
    FixedOptionArgs(d);
  }

  lemma AllowOtherStep(d: Descriptor, c: seq<string>)
    ensures (if d.allowOther then c + ["-o", "allow_other"] else c) == c + OptionArgs(AllowOtherOptions(d))
  {
    FixedOptionArgs(d);
  }

  /* The three sequence facts the loop of `BuildSshfsCommand` needs, kept
     as lemmas so that the method's own proof stays small. */

  lemma AppendNext(s: seq<string>, i: nat)
    requires i < |s|
    ensures s[..i] + [s[i]] == s[..i + 1]
  {
  }

  lemma TakeAll(s: seq<string>)
    ensures s[..|s|] == s
  {
  }

  lemma NoArgs(c: seq<string>)
    ensures c + OptionArgs([]) == c
  {
  }

  /** Builds the mount command by successive extensions of a list, as the
      GUI does, and yields `MountArgv`. */
  method BuildSshfsCommand(d: Descriptor) returns (cmd: seq<string>)
    ensures cmd == MountArgv(d)
  {
    var server := Strip(d.server);
    var port := PortArg(d);
    var username := Strip(d.username);
    var remoteDir := RemoteDirArg(d);
    var localDir := Strip(d.localDir);

    cmd := ["sshfs", username + "@" + server + ":" + remoteDir, localDir];
    cmd := cmd + ["-p", port];
    assert cmd == MountHead(d);

    AuthSteps(d, cmd);
    if UsesKey(d) {
      var keyFile := Strip(d.keyFile);
      cmd := cmd + ["-o", "IdentityFile=" + keyFile];
      cmd := cmd + ["-o", "PasswordAuthentication=no"];
    }

    KeepAliveSteps(d, cmd);
    cmd := cmd + ["-o", "reconnect"];
    cmd := cmd + ["-o", "ServerAliveInterval=15"];
    cmd := cmd + ["-o", "ServerAliveCountMax=3"];

    AllowOtherStep(d, cmd);
    if d.allowOther {
      cmd := cmd + ["-o", "allow_other"];
    }
    ghost var fixed := cmd;

    var additionalOpts := Strip(d.additionalOptions);
    SplitOfStrip(d.additionalOptions);
    var opts: seq<string> := [];
    NoArgs(fixed);
    if additionalOpts != [] {
      opts := Split(additionalOpts);
      for i := 0 to |opts|
        invariant cmd == fixed + OptionArgs(opts[..i])
      {
        ExtendOption(cmd, fixed, opts[..i], opts[i]);
        AppendNext(opts, i);
        cmd := cmd + ["-o", opts[i]];
      }
      TakeAll(opts);
    }
    assert opts == Split(d.additionalOptions);
    MountArgvGroups(d);
  }

  /** The mount command's fixed part: the tool, `user@server:remote_dir`,
      the local directory and the port, from the stripped fields, with
      "22" and "/" for a blank port and remote directory. */
  lemma MountCommandPrefix(d: Descriptor)
    ensures var cmd := MountArgv(d);
      && cmd[..5] == ["sshfs", Strip(d.username) + "@" + Strip(d.server) + ":" + RemoteDirArg(d),
                      Strip(d.localDir), "-p", PortArg(d)]
      && cmd[4] == (if IsBlank(d.port) then "22" else Strip(d.port))
      && RemoteDirArg(d) == (if IsBlank(d.remoteDir) then "/" else Strip(d.remoteDir))
  {
  }

  /** The mount command has 11 elements, plus 4 in key mode, plus 2 with
      allow_other, plus 2 per user token. */
  lemma MountCommandLength(d: Descriptor)
    ensures |MountArgv(d)| == 11 + (if UsesKey(d) then 4 else 0) + (if d.allowOther then 2 else 0)
                              + 2 * |Split(d.additionalOptions)|
  {
  }

  /** The option part of the mount command, laid out: the key options right
      after the port in key mode, the keep-alive options always and in that
      order, allow_other right after them when asked for, and each user
      token last, preceded by its own `-o`, in input order. */
  lemma MountCommandLayout(d: Descriptor)
    ensures var cmd, k := MountArgv(d), if UsesKey(d) then 9 else 5;
      && |cmd| >= k + 6
      && (UsesKey(d) ==> cmd[5..9] == ["-o", "IdentityFile=" + Strip(d.keyFile), "-o", "PasswordAuthentication=no"])
      && cmd[k..k + 6] == ["-o", "reconnect", "-o", "ServerAliveInterval=15", "-o", "ServerAliveCountMax=3"]
      && cmd[k + 6..] == (if d.allowOther then ["-o", "allow_other"] else []) + OptionArgs(Split(d.additionalOptions))
  {
    var head, auth, keep, tail := MountHead(d), OptionArgs(AuthOptions(d)), OptionArgs(KeepAliveOptions),
                                  OptionArgs(AllowOtherOptions(d) + Split(d.additionalOptions));
    MountArgvPieces(d);
    ThreePieces(head + auth, keep, tail);
    FixedOptionArgs(d);
    OptionArgsAppend(AllowOtherOptions(d), Split(d.additionalOptions));
    if UsesKey(d) {
      ThreePieces(head, auth, keep + tail);
    }
  }

  /** `MountArgv` cut into its four parts. */
  lemma MountArgvPieces(d: Descriptor)
    ensures MountArgv(d) == (MountHead(d) + OptionArgs(AuthOptions(d)))
                            + (OptionArgs(KeepAliveOptions) + OptionArgs(AllowOtherOptions(d) + Split(d.additionalOptions)))
  {
    var ha, ok, oo, ou := MountHead(d) + OptionArgs(AuthOptions(d)), OptionArgs(KeepAliveOptions),
                          OptionArgs(AllowOtherOptions(d)), OptionArgs(Split(d.additionalOptions));
    MountArgvGroups(d);
    OptionArgsAppend(AllowOtherOptions(d), Split(d.additionalOptions));
    Assoc(ok, oo, ou);
    Assoc(ha, ok + oo, ou);
    Assoc(ha, ok, oo);
  }

  /** Where each of three joined sequences sits in their concatenation. */
  lemma ThreePieces<T>(a: seq<T>, b: seq<T>, c: seq<T>)
    ensures (a + (b + c))[..|a|] == a
    ensures (a + (b + c))[|a|..|a| + |b|] == b
    ensures (a + (b + c))[|a| + |b|..] == c
  {
  }

  predicate StartsWith(s: string, prefix: string) {
    |prefix| <= |s| && s[..|prefix|] == prefix
  }

  /** Only key mode adds an `IdentityFile=` option of its own, as the very
      first option; in any other mode such an option can only be one of the
      user's tokens. */
  lemma IdentityOptionOnlyInKeyMode(d: Descriptor)
    ensures var opts := MountOptions(d);
      forall i :: 0 <= i < |opts| && StartsWith(opts[i], "IdentityFile=") ==>
        (UsesKey(d) && i == 0) || opts[i] in Split(d.additionalOptions)
  {
    var opts, fixed := MountOptions(d), AuthOptions(d) + KeepAliveOptions + AllowOtherOptions(d);
    assert opts == fixed + Split(d.additionalOptions);
    forall i | 0 <= i < |opts| && StartsWith(opts[i], "IdentityFile=")
      ensures (UsesKey(d) && i == 0) || opts[i] in Split(d.additionalOptions)
    {
      if i < |fixed| {
        var v := opts[i];
        assert v == fixed[i];
        assert v[0] == 'I';
        assert v != "PasswordAuthentication=no" && v != "reconnect" && v != "allow_other";
        assert v != "ServerAliveInterval=15" && v != "ServerAliveCountMax=3";
        assert UsesKey(d) && i == 0;
      } else {
        assert opts[i] == Split(d.additionalOptions)[i - |fixed|];
      }
    }
  }

  /** `allow_other` is passed exactly when the box is ticked or the user
      typed it among the additional options. */
  lemma AllowOtherIff(d: Descriptor)
    ensures "allow_other" in MountOptions(d) <==> d.allowOther || "allow_other" in Split(d.additionalOptions)
  {
  }

  /** The connection test offers the key with `-i` only in key mode, when
      the stripped key path is non-empty and exists. */
  function TestUsesKey(d: Descriptor, fs: FileSystem): bool {
    UsesKey(d) && !IsBlank(d.keyFile) && fs.pathExists(Strip(d.keyFile))
  }

  const TestProbe: string := "echo 'Connection successful'"

  /** The `ssh` invocation of the connection test. */
  function TestArgv(d: Descriptor, fs: FileSystem): seq<string> {
    ["ssh", "-p", PortArg(d), "-o", "ConnectTimeout=10", "-o", "BatchMode=yes"]
    + (if TestUsesKey(d, fs) then ["-i", Strip(d.keyFile)] else [])
    + [Login(d), TestProbe]
  }

  /** Builds the connection-test command by successive extensions, as the
      GUI does, and yields `TestArgv`. */
  method BuildTestCommand(d: Descriptor, fs: FileSystem) returns (cmd: seq<string>)
    ensures cmd == TestArgv(d, fs)
  {
    var server := Strip(d.server);
    var port := Strip(d.port);
    if port == [] { port := "22"; }
    var username := Strip(d.username);

    cmd := ["ssh", "-p", port, "-o", "ConnectTimeout=10", "-o", "BatchMode=yes"];

    if UsesKey(d) {
      var keyFile := Strip(d.keyFile);
      if keyFile != [] && fs.pathExists(keyFile) {
        cmd := cmd + ["-i", keyFile];
      }
    }

    cmd := cmd + [username + "@" + server, TestProbe];
  }

  /** The test command: a fixed prefix with the port and the two batch
      options, `-i key` right after it exactly when the key is offered, and
      `user@server` with the probe command last. */
  lemma TestCommandLayout(d: Descriptor, fs: FileSystem)
    ensures var cmd, uses := TestArgv(d, fs), TestUsesKey(d, fs);
      && |cmd| == (if uses then 11 else 9)
      && cmd[..7] == ["ssh", "-p", PortArg(d), "-o", "ConnectTimeout=10", "-o", "BatchMode=yes"]
      && (cmd[7] == "-i" <==> uses)
      && (uses ==> cmd[8] == Strip(d.keyFile))
      && cmd[|cmd| - 2..] == [Strip(d.username) + "@" + Strip(d.server), TestProbe]
  {
    var login := Login(d);
    var u := Strip(d.username);
    assert login[|u|] == '@';
    assert login != "-i" by {
      assert forall k :: 0 <= k < 2 ==> "-i"[k] != '@';
    }
  }

  /** The `umount` invocation for the local directory. */
  function UnmountArgv(localDir: string): seq<string> {
    ["umount", Strip(localDir)]
  }
}
