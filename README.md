# sshfs-gui connection core in Dafny

sshfs-gui is a Tkinter front end for `sshfs`. Behind its form sits a small
core: it validates the connection fields, builds the argument vectors of
`sshfs` (mount), `ssh` (connection test) and `umount`, turns an exit status
into the message the user sees, and keeps a most-recent-first store of at
most ten saved connection profiles that can be recalled into the form.

This project models that core and proves its properties:

- `text.dfy` (module `Text`): Python's `str.isspace`, `str.strip()` and
  `str.split()` on the field text. Words separated by any non-empty runs
  of whitespace, with any whitespace before and after, split back into
  exactly those words, and stripping before splitting changes nothing.
- `descriptor.dfy` (module `Descriptors`): the form contents as raw text
  (`Descriptor`), and the two file-system questions the code asks as
  oracles (`FileSystem`: does a path exist, would `makedirs` succeed).
- `validation.dfy` (module `Validation`): the checks run before a mount.
  The first failing check is reported, and a form is accepted exactly when
  no check fails.
- `commands.dfy` (module `Commands`): the mount and test commands, each
  built step by step by a method that is proved equal to a reference
  function. Lemmas lay out the mount command's order, length and options.
- `outcomes.dfy` (module `Outcomes`): the `stderr or "<fallback>"` message
  choice, and the unmount sequence with its literal retry of the same
  command.
- `profiles.dfy` (module `Profiles`): the recent-servers store as a class
  with a `seq` field, the save (filter by name, prepend, cut to ten), and
  the recall of one entry into the form with the defaults of missing keys.

The port is never parsed or range-checked: it is stripped and passed on
as text, and a blank port becomes "22" (sshfs_gui.py:283 and 411). When
the first `umount <dir>` fails, the code runs the identical command a
second time (sshfs_gui.py:381 and 386), and so does the model.

## Model

| member | source | states |
|---|---|---|
| Text.TrimStartCutsSpace | sshfs_gui.py:282-286 | the left strip removes exactly a leading run of whitespace and keeps the rest of the text |
| Text.TrimEndCutsSpace | sshfs_gui.py:282-286 | the right strip removes exactly a trailing run of whitespace and keeps the rest of the text |
| Text.Strip | sshfs_gui.py:282-286 | `strip()` is no longer than its input, and when not empty it starts and ends with a non-space character |
| Text.StripCutsOnlySpace | sshfs_gui.py:282-286 | the input is the stripped text with a run of whitespace on each side |
| Text.BlankIffAllSpace | sshfs_gui.py:243-253 | a field counts as blank (`not s.strip()`) exactly when every character of it is whitespace |
| Text.WordLength | sshfs_gui.py:312 | the run of non-space characters at the start of the text ends at the first whitespace character or at the end of the text |
| Text.Split | sshfs_gui.py:310-313 | every token of `split()` is non-empty and free of whitespace, and the tokens together are exactly the non-space characters of the input, in order |
| Text.SplitSpaced | sshfs_gui.py:310-313 | words separated by non-empty runs of any whitespace, with any whitespace (or none) before the first and after the last, split back into exactly those words: `split()` returns the maximal runs of non-space characters |
| Text.SplitOfStrip | sshfs_gui.py:310-313 | `s.strip().split()` equals `s.split()` |
| Validation.Validate | sshfs_gui.py:241-278 | the seven checks in source order (server, username, local directory, password in password mode, key path and its existence in key mode, local directory exists or can be created), stopping at the first that fails; its meaning is proved by the two lemmas below |
| Validation.ValidateAcceptsExactly | sshfs_gui.py:241-278 | the form is accepted if and only if none of the seven checks fails |
| Validation.ValidateReportsFirstFailure | sshfs_gui.py:241-278 | a rejection names a check that fails, and no failing check runs before it |
| Validation.AcceptedCredentials | sshfs_gui.py:243-266 | an accepted form has a non-blank server, username and local directory; in password mode a non-empty, unstripped password; in key mode a non-blank key path that exists |
| Commands.OptionArgs | sshfs_gui.py:312-313 | each option value becomes the pair `-o value`, in the order given, so the result is twice as long |
| Commands.OptionArgsAppend | sshfs_gui.py:295-313 | the `-o` pairs of two option lists in a row are the pairs of the first followed by those of the second |
| Commands.MountArgv | sshfs_gui.py:280-316 | the `sshfs` command as a value: the head, then `-o` before each option of the key, keep-alive, allow_other and user groups; the lemmas below lay it out |
| Commands.BuildSshfsCommand | sshfs_gui.py:280-316 | growing the list by successive extensions yields exactly `MountArgv` |
| Commands.MountCommandPrefix | sshfs_gui.py:282-293 | the command starts `sshfs`, `user@server:remote`, local dir, `-p`, port, from the stripped fields, with "22" for a blank port and "/" for a blank remote directory |
| Commands.MountCommandLength | sshfs_gui.py:280-316 | the command has 11 elements, plus 4 in key mode, plus 2 with allow_other, plus 2 per user token |
| Commands.MountCommandLayout | sshfs_gui.py:295-313 | the key options come right after the port in key mode; the keep-alive options follow in their fixed order; then allow_other when asked for; then `-o t` for each token `t`, in input order |
| Commands.MountArgvGroups | sshfs_gui.py:288-313 | the command is the head followed by the `-o` pairs of the auth, keep-alive, allow_other and user option groups |
| Commands.IdentityOptionOnlyInKeyMode | sshfs_gui.py:295-299 | an `IdentityFile=` option is either the first option in key mode or one of the user's tokens; outside key mode the code adds none |
| Commands.AllowOtherIff | sshfs_gui.py:306-313 | `allow_other` is among the options if and only if the box is ticked or the user typed it as a token |
| Commands.TestArgv | sshfs_gui.py:409-420 | the `ssh` test command as a value, laid out by `TestCommandLayout` |
| Commands.BuildTestCommand | sshfs_gui.py:409-420 | growing the test command by successive extensions yields exactly `TestArgv` |
| Commands.TestCommandLayout | sshfs_gui.py:409-420 | the test command starts with `ssh -p port -o ConnectTimeout=10 -o BatchMode=yes`, has `-i key` next if and only if the key is offered, and ends with `user@server` and the echo probe |
| Commands.UnmountArgv | sshfs_gui.py:381 | the `umount` command for the stripped local directory, the one `UnmountFilesystem` runs both times |
| Outcomes.Classify | sshfs_gui.py:359-365 | success exactly on exit status 0; a failure's message is stderr when there is any and the fallback otherwise |
| Outcomes.FailureMessageNeverEmpty | sshfs_gui.py:393 | with either fallback the code uses, a reported failure always has a non-empty message |
| Outcomes.UnmountFilesystem | sshfs_gui.py:372-399 | a blank local directory is refused before anything runs; otherwise `umount <dir>` runs once, or twice with the identical command when the first exit status is non-zero, and the verdict is taken from the last run |
| Profiles.ProfileOf | sshfs_gui.py:449-460 | the profile dictionary built from the raw form fields; its shape is stated by `SavedProfileShape` |
| Profiles.SavedProfileShape | sshfs_gui.py:449-460 | the saved profile has exactly the ten keys, never a password, and is named by the unstripped username and server |
| Profiles.ProfileOfName | sshfs_gui.py:450 | the profile saved for a form is stored under exactly one name, the unstripped `username@server` |
| Profiles.WithoutName | sshfs_gui.py:463 | the filter keeps exactly the entries not stored under the name, and never grows the list |
| Profiles.WithoutNameAppend | sshfs_gui.py:463 | the filter works entry by entry and keeps the order of what it keeps |
| Profiles.WithoutNameUnchanged | sshfs_gui.py:463 | a list with no entry of that name passes the filter unchanged |
| Profiles.Take | sshfs_gui.py:469 | `s[:n]` is the first `n` entries, or all of them when there are fewer |
| Profiles.Upsert | sshfs_gui.py:462-469 | after a save the new profile is first, the list holds one to ten entries, no other entry carries its name, and the rest are the earlier entries of other names, in their order, cut to nine |
| Profiles.UpsertIdempotent | sshfs_gui.py:462-469 | saving the same form twice gives the same list as saving it once |
| Profiles.UpsertKeepsNamesDistinct | sshfs_gui.py:462-469 | if no two entries share a name before a save, none do after it |
| Profiles.MostRecentFirst | sshfs_gui.py:462-469 | saving forms under distinct names into an empty store keeps the ten most recent, newest first |
| Profiles.EleventhSaveEvictsOldest | sshfs_gui.py:469 | the eleventh save under a new name leaves ten entries and drops the oldest one |
| Profiles.Get | sshfs_gui.py:505-527 | `p.get(key, default)` is the stored value when the key is present and the default otherwise |
| Profiles.FormFrom | sshfs_gui.py:505-527 | the value each form field gets from one entry, with the `.get` default of every key; `LoadOfEmptyProfile` and `LoadAfterSave` state them |
| Profiles.LoadRecentServer | sshfs_gui.py:495-527 | something is recalled if and only if there is a selection and its first index is inside the list; then the form gets the values of that entry, with the defaults for missing keys |
| Profiles.LoadAfterSave | sshfs_gui.py:447-527 | recalling the first entry right after a save gives back every saved field of the form |
| Profiles.LoadAfterSaves | sshfs_gui.py:447-527 | after saves under distinct names, recalling index k gives the form saved k saves before the last |
| Profiles.LoadOfEmptyProfile | sshfs_gui.py:505-527 | an entry with no keys recalls port "22", remote directory "/", method "password", allow_other false and empty text elsewhere |
| Profiles.RecentServers.constructor | sshfs_gui.py:21 | the store starts from the list read from the file, or from an empty list |
| Profiles.RecentServers.SaveToRecentServers | sshfs_gui.py:447-469 | filtering, inserting at the front and cutting the field in place leaves it equal to `Upsert` of its old value |

## Left out

- The Tkinter interface: layout, widget enabling, password show/hide, file
  dialogs, message boxes, the log pane and the list box of profile names.
  The model stops at the values the GUI would show or put into widgets.
- Starting processes: the mount and test flows around the commands, the 10
  and 15 second timeouts, `process.kill`, writing the password to `sshfs`'s
  standard input, and the exceptions they catch. The exit statuses of the
  two `umount` runs are inputs of `UnmountFilesystem`.
- The background thread of the connection test.
- Reading and writing the JSON configuration file. A load is "some list, or
  an empty list"; the write after a save is not modelled. Entries are
  assumed to be JSON objects.
- The side effect of creating the local directory during validation. It is
  an oracle saying whether creation would succeed.
- Tk's conversion to text of non-string values recalled into an entry
  field: the recalled form holds the JSON values themselves.
- The connection mode, auto-reconnect and mount-on-startup variables. No
  command uses them.
- JSON values other than strings and booleans are not told apart: every
  number, null, list and object read back from the file is the same
  `JOther`. So `DistinctNames` counts two entries named by different
  non-string values as sharing a name. Only a hand-edited file holds such names; the program
  writes string names only.
- The comment in the unmount code names `fusermount`, but the code runs
  `umount` both times; the model follows the code.
