# RO-FiS flat file table and command loop, in Dafny

RO-FiS is an in-memory file system simulator driven from a command prompt.
This model covers its first revision, `ROFiS/ROFiS/ROFiS.cpp`:

- a `File` is a name and a content string;
- a `Directory` holds one name-to-file table. `addFile` upserts into it,
  `getFile` is a guarded lookup that yields null on a missing name, and
  `listFiles` emits every name once;
- a `FileSystem` owns a single root `Directory` and forwards `createFile`,
  `readFile` and `listFiles` to it;
- `main` reads lines in a loop and dispatches them in a fixed order. The
  exact line `exit` stops the loop. A line starting with `cr` is split at
  its first two spaces into a name and a content. A line starting with `rd`
  reads the file named by the suffix from index 5. The exact line `ls`
  lists. Anything else is an unknown command.

Modules:

- `Optional` (`optional.dfy`): the absence value standing for `nullptr` and `npos`.
- `Text` (`text.dfy`): `std::string::find` and the prefix test `rfind(p, 0) == 0`.
- `FileTable` (`file_table.dfy`): `File`, the pure table operations `Upsert`
  and `Lookup`, and the classes `Directory` and `FileSystem`. The table is a
  field of type `map<string, File>` that the methods reassign.
- `Commands` (`commands.dfy`): the dispatcher as pure functions of a line.
  It covers the create split, the read argument and `Parse`.
- `Shell` (`shell.dfy`): one loop step (`Execute`) and the loop (`Run`).
  `Execute` is proved against `Parse` and `Apply`, the effect of one command
  on the table. `Run` is proved against `Replay`, a function giving the whole
  session over a sequence of input lines.

Behaviour kept as the code has it:

- The search for the second space starts at `firstSpace + 1`. When there is
  no first space, `firstSpace` is `npos` and this sum wraps round to 0. The
  model writes that wrap-around out (`Commands.SearchFrom`).
- The filename may be empty: `cr  x` creates a file named `""`.
- `rd <name>` reads `name` without its first two bytes. An `rd` line
  shorter than five bytes makes `substr(5)` throw `std::out_of_range`.
  Nothing catches the exception, so the process ends. The model makes this
  a `ReadOutOfRange` command that halts the loop with `OutOfRange`.
- The help text advertises `read <filename>` and `list`. The dispatcher only
  recognises `rd` and `ls`, so both advertised forms are unknown commands.
  `create <filename> <content>` does work, because it starts with `cr`.

## Model

| member | source | states |
|---|---|---|
| `Text.Find` | ROFiS/ROFiS/ROFiS.cpp:88-89 | `find(" ", from)` yields the first index at or after `from` holding the character, and `npos` exactly when no such index exists |
| `Text.FindFirst` | ROFiS/ROFiS/ROFiS.cpp:88-89 | any index that holds the character, with none before it from `from` on, is what `find` returns |
| `Text.HasPrefix` | ROFiS/ROFiS/ROFiS.cpp:86 | `rfind(p, 0) == 0` holds exactly when the line is at least as long as `p` and agrees with `p` at every position of `p` |
| `Text.HasPrefixAppend` | ROFiS/ROFiS/ROFiS.cpp:86 | `rfind(p, 0) == 0` holds for every line that begins with `p` |
| `FileTable.Upsert` | ROFiS/ROFiS/ROFiS.cpp:21-23 | after `addFile(n, c)` the keys are the old keys plus `n`; `n` maps to `File(n, c)`; every other entry is unchanged; well-named tables stay well-named |
| `FileTable.Lookup` | ROFiS/ROFiS/ROFiS.cpp:25-30 | lookup is absent exactly when the name is not a key, and otherwise yields the stored file |
| `FileTable.LookupUpsert` | ROFiS/ROFiS/ROFiS.cpp:21-30 | reading a name just written yields `File(n, c)`; reading any other name is unaffected by the write |
| `FileTable.UpsertSize` | ROFiS/ROFiS/ROFiS.cpp:22 | an upsert adds exactly one entry for a new name and none for a present one |
| `FileTable.UpsertOverwrites` | ROFiS/ROFiS/ROFiS.cpp:22 | a second upsert under the same name silently replaces the first |
| `FileTable.LookupName` | ROFiS/ROFiS/ROFiS.cpp:25-30 | in a table built by `addFile`, a found file carries the name it was looked up by |
| `FileTable.Directory.constructor` | ROFiS/ROFiS/ROFiS.cpp:17-19 | a new directory has an empty table |
| `FileTable.Directory.AddFile` | ROFiS/ROFiS/ROFiS.cpp:21-23 | the new table is the upsert of the old one, and every entry stays stored under its own name |
| `FileTable.Directory.GetFile` | ROFiS/ROFiS/ROFiS.cpp:25-30 | yields null exactly when the name is missing, otherwise the file with that name and its stored content; the table is not modified |
| `FileTable.Directory.ListFiles` | ROFiS/ROFiS/ROFiS.cpp:32-36 | the listed names, as a multiset, are exactly the key set: every name once |
| `FileTable.FileSystem.constructor` | ROFiS/ROFiS/ROFiS.cpp:44 | a new file system owns a fresh, empty root directory |
| `FileTable.FileSystem.CreateFile` | ROFiS/ROFiS/ROFiS.cpp:46-48 | is the root's `addFile` |
| `FileTable.FileSystem.ReadFile` | ROFiS/ROFiS/ROFiS.cpp:50-58 | is the root's `getFile`; found and not found stay distinct, and a found file has the requested name |
| `FileTable.FileSystem.ListFiles` | ROFiS/ROFiS/ROFiS.cpp:60-62 | is the root's `listFiles`: each root name exactly once |
| `Commands.SearchFrom` | ROFiS/ROFiS/ROFiS.cpp:89 | the second search starts at `firstSpace + 1` taken modulo 2^64, as `size_t` arithmetic gives it: after the first space when there is one, and at index 0 when `firstSpace` is `npos` |
| `Commands.SplitCreate` | ROFiS/ROFiS/ROFiS.cpp:88-97 | a create line either yields a name and content or is malformed; the name holds no space; the content is a suffix of the line and directly follows a space |
| `Commands.ReadArgument` | ROFiS/ROFiS/ROFiS.cpp:100 | `substr(5)` is defined exactly when the line has at least five bytes, and is then the line with its first five bytes removed; otherwise it throws |
| `Commands.Parse` | ROFiS/ROFiS/ROFiS.cpp:83-109 | the command is `exit` exactly for the line `exit` and a listing exactly for `ls`; create outcomes only come from `cr` lines and read outcomes only from `rd` lines |
| `Commands.SplitCreateDefined` | ROFiS/ROFiS/ROFiS.cpp:88-90 | a create line is split exactly when it contains at least two spaces |
| `Commands.SplitCreateJoin` | ROFiS/ROFiS/ROFiS.cpp:88-93 | a space-free verb, a space, a space-free name, a space and any content split back into that name and content |
| `Commands.SplitCreateParts` | ROFiS/ROFiS/ROFiS.cpp:88-93 | a line that splits is a space-free verb, a space, the space-free name, a space and the content |
| `Commands.EmptyNameAccepted` | ROFiS/ROFiS/ROFiS.cpp:88-93 | two adjacent spaces after `cr` create a file with the empty name |
| `Commands.ContentKeepsSpaces` | ROFiS/ROFiS/ROFiS.cpp:91-92 | for every space-free name and every content, `cr <name> <content>` creates that name with that content, spaces in the content included |
| `Commands.ParseDispatch` | ROFiS/ROFiS/ROFiS.cpp:83-109 | dispatch order: exact `exit`, then prefix `cr`, then prefix `rd`, then exact `ls`, and everything else is unknown |
| `Commands.ParseCreate` | ROFiS/ROFiS/ROFiS.cpp:86-97 | a `cr` line is dispatched to the split: it creates exactly when it has two spaces, and is otherwise malformed |
| `Commands.ParseRead` | ROFiS/ROFiS/ROFiS.cpp:99-101 | an `rd` line reads `line[5..]`, and throws exactly when it is shorter than five bytes |
| `Commands.ReadSkipsTwo` | ROFiS/ROFiS/ROFiS.cpp:99-101 | `rd <name>` reads `name` without its first two bytes, and throws for a name shorter than two bytes |
| `Commands.AdvertisedNamesUnknown` | ROFiS/ROFiS/ROFiS.cpp:65-109 | the help text's `read <filename>` and `list` fall through to the unknown-command branch |
| `Shell.Apply` | ROFiS/ROFiS/ROFiS.cpp:93 | only a create changes the table: it adds or replaces the one entry `File(name, content)`, every other entry and every other command leave the table as it was, and entries stay stored under their own names |
| `Shell.Replay` | ROFiS/ROFiS/ROFiS.cpp:79-110 | a session reads at most all the input lines, and reads none exactly when there is no input |
| `Shell.ReplayStopsAtFirst` | ROFiS/ROFiS/ROFiS.cpp:79-110 | the loop reads up to and including the first `exit` or short `rd` line; it reads all input only when no line stops it; an `exit` halt ends at an `exit` line and an out-of-range halt at an `rd` line shorter than five bytes |
| `Shell.ReplayWellNamed` | ROFiS/ROFiS/ROFiS.cpp:79-110 | every session keeps each entry stored under its own name |
| `Shell.ReplayKeepsNames` | ROFiS/ROFiS/ROFiS.cpp:79-110 | no command removes a file: the names only accumulate |
| `Shell.ReplayWithoutCreate` | ROFiS/ROFiS/ROFiS.cpp:83-109 | a session in which no line the loop reads is a well-formed create leaves the table unchanged; lines after the stopping line are never read |
| `Shell.CreateThenRead` | ROFiS/ROFiS/ROFiS.cpp:86-93 | after a well-formed create line, looking up its name yields exactly that name and content |
| `Shell.Execute` | ROFiS/ROFiS/ROFiS.cpp:83-109 | one loop step. Only a create changes the table, and it upserts. A read shows the stored file or reports not found. A listing gives each name once. A malformed create and an unknown line are reported. `exit` and a short `rd` stop the loop |
| `Shell.Run` | ROFiS/ROFiS/ROFiS.cpp:79-110 | the final table, the halt reason and the number of lines read are those of `Replay` over the input |

## Left out

- Characters: a `char` stands for one byte of `std::string`. Lengths and indices count bytes, so a multi-byte UTF-8 character is several `char`s.
- Console output: the prompt, `printHelp` and the printed messages. The `Response` values stand for the printed text.
- `shared_ptr`/`make_shared`: a `File` is a value, and nothing in this program shares one.
- `unordered_map` iteration order: listings are stated as multiset equality with the key set.
- End of input: the model treats input as a finite sequence of lines and stops when it runs out. The program would instead keep looping after a failed `getline`.
- Exception control flow: the uncaught `std::out_of_range` from `substr(5)` is modelled as the loop halting with `OutOfRange`.
- Subdirectories, the current-directory cursor, snapshot persistence and the partition allocator are not part of this model. They do not exist in `ROFiS/ROFiS/ROFiS.cpp`.
