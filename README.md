# File-system simulator, modelled in Dafny

The simulator keeps an in-memory directory tree and a cursor (the current
directory). Each `Directory` holds two maps:

- file sizes, by file name;
- child directories, by name.

Each `Directory` also refers back to its parent. A `FileSystem` holds the root and the cursor. `cd` moves the
cursor up to the parent or down into a named child. Creating and deleting
files and folders acts on the children of the current directory. `size`
reports the aggregate size of the current directory as a Java `int`. The
application prints a help text. It then reads one line at a time and
dispatches on the first word and the number of words, until `exit`.

The project has four modules, one file each:

- `Tree` (`tree.dfy`) holds the tree as a value: `Dir(files, subs)`.
  - The four `Directory` mutators are functions on it.
  - `Size` is the exact recursive aggregate size, and `Wrap32` is Java's 32-bit wrap-around.
  - It also has following a path of names (`At`) and rebuilding the tree around a changed directory (`Replace`).
- `Session` (`session.dfy`) holds the session as a value: the tree and the path of names from the root to the cursor.
  - The parent of the current directory is the directory at the path without its last name.
  - `cd` and the create and delete operations are functions on it.
  - `Valid` says that the cursor names a reachable directory.
- `Heap` (`heap.dfy`) has the classes `Directory` and `FileSystem`, whose methods update maps and the cursor in place.
  - Ghost state (`nodes`, `cwd`, `trail`) and the abstraction `FileSystem.State()` tie the objects to a `Session.State`.
  - Every method is proved to move that state exactly as the matching `Session` function does.
  - `GetDirectorySize` visits the children in whatever order the map gives. It adds with 32-bit wrap-around, and is proved to return the exact size wrapped to 32 bits.
- `Shell` (`shell.dfy`) has the dispatch `Dispatch` from a line of tokens to a `Command`, the effect `Step` of one command, and the effect `Run` of a whole input.
  - The class `App`, whose `Start` loop drives a `FileSystem`, is proved to write and end exactly as `Run` says.
  - A `cd` with no argument, or with more than one, changes into a directory called "cd". This is the application's behaviour, and `BareCd` records it.

## Model

| member | source | states |
|---|---|---|
| Tree.Wrap32 | Main.java:61-64 | the result is a Java `int` and equals the input whenever the input already is one |
| Tree.WrapAdd | Main.java:64 | adding two wrapped values and wrapping gives the wrapped exact sum |
| Tree.Dir.AddFile | Main.java:44-46 | file `name` now has the given size, replacing any earlier one; other files and all subdirectories are unchanged |
| Tree.Dir.DeleteFile | Main.java:48-50 | exactly key `name` is removed from the files; other entries are unchanged; deleting an absent name is a no-op |
| Tree.Dir.AddFolder | Main.java:52-54 | subdirectory `name` is now the empty directory, discarding any earlier subtree; everything else is unchanged |
| Tree.Dir.DeleteFolder | Main.java:56-58 | exactly key `name` is removed from the subdirectories; other entries are unchanged; an absent name is a no-op |
| Tree.TotalRemove | Main.java:61 | the sum of a map's values is any one value plus the sum of the rest, whatever order the entries are taken in |
| Tree.SumOverTotal | Main.java:63-65 | visiting every key exactly once, in any order, sums to the total of the map |
| Tree.TotalUpdate | Main.java:45 | setting one entry changes the total by the new value minus the replaced one |
| Tree.TotalDelete | Main.java:49 | removing one entry takes exactly its value off the total |
| Tree.SizeEmpty | Main.java:60-68 | an empty directory has size 0 |
| Tree.SizeAddFile | Main.java:44-46 | putting a file changes the aggregate size by new size minus replaced size; it does not accumulate |
| Tree.SizeDeleteFile | Main.java:48-50 | deleting a file takes exactly its size off the aggregate size |
| Tree.SizeAddFolder | Main.java:52-54 | installing an empty folder takes off the size of the subtree it replaces |
| Tree.SizeDeleteFolder | Main.java:56-58 | deleting a folder takes off its whole aggregate size |
| Tree.AtSnoc | Main.java:40-42 | following one more name is looking that name up among the subdirectories of the directory reached |
| Tree.AtPrefix | Main.java:93-94 | every prefix of a path that exists exists too, so the parent of a reachable directory is reachable |
| Tree.AtSplit | Main.java:96-98 | following a path is following a prefix of it and then the rest |
| Tree.Replace | Main.java:113-127 | after changing the directory at a path in place, that path leads to the new directory |
| Tree.ReplaceElsewhere | Main.java:113-127 | a change to one directory leaves every directory off its path unchanged |
| Tree.ReplaceAbove | Main.java:113-127 | a directory above the changed one is its old self with the change made below it |
| Tree.SizeReplace | Main.java:60-68 | changing one directory from y to x changes the aggregate size of the tree by Size(x) - Size(y) |
| Session.State.Cd | Main.java:91-103 | the tree is unchanged and the cursor stays reachable; `..` moves the cursor to the path without its last name, or keeps it at the root; the directory is reported missing exactly when the name is not `..` and not a subdirectory, and then the cursor stays put; otherwise the cursor path gains exactly that name, so the cursor is that subdirectory |
| Session.State.Put | Main.java:113-127 | the current directory becomes the given one, the cursor stays put and stays reachable |
| Session.State.CreateFile | Main.java:113-115 | the current directory gets the file, the cursor stays put |
| Session.State.CreateFolder | Main.java:117-119 | the current directory gets a fresh empty folder, the cursor stays put |
| Session.State.DeleteFile | Main.java:121-123 | the current directory loses that file, the cursor stays put |
| Session.State.DeleteFolder | Main.java:125-127 | the current directory loses that folder, the cursor stays put |
| Session.CdUpAtRoot | Main.java:92-95 | `cd ..` at the root changes nothing and reports nothing |
| Session.CdUpIsParent | Main.java:92-95 | `cd ..` below the root moves to the directory that holds the current one under the last name of the path |
| Session.CdDownUp | Main.java:96-98 | a successful `cd name` followed by `cd ..` comes back to the starting session |
| Session.CdMissing | Main.java:97-101 | `cd` to a name that is not a subdirectory changes nothing and reports a missing directory |
| Session.PutElsewhere | Main.java:113-127 | changing the current directory leaves every directory neither above nor below it as it was |
| Session.PutSizeAbove | Main.java:60-68 | changing the current directory from c to d changes the size of every directory above it by Size(d) - Size(c) |
| Heap.Directory.constructor | Main.java:27-30 | a new directory has the given name and parent, no files and no subdirectories |
| Heap.Directory.GetSubDirectory | Main.java:40-42 | non-null exactly when a subdirectory of that name exists, and then it is that subdirectory |
| Heap.Directory.AddFile | Main.java:44-46 | the file map is the old one with `name` set to `size` |
| Heap.Directory.DeleteFile | Main.java:48-50 | the file map is the old one without `name` |
| Heap.Directory.AddFolder | Main.java:52-54 | `name` now maps to a fresh, empty directory whose parent is this one; other subdirectories are unchanged |
| Heap.Directory.DeleteFolder | Main.java:56-58 | the subdirectory map is the old one without `name` |
| Heap.Directory.ListDirectory | Main.java:70-78 | the names of the files and the names of the subdirectories, exactly |
| Heap.Directory.GetDirectorySize | Main.java:60-68 | the exact aggregate size of the objects below, wrapped to a Java `int`, whatever order the children are visited in |
| Heap.SumSizes | Main.java:61 | the stream sum of the file sizes is their exact total wrapped to a Java `int` |
| Heap.AddStep | Main.java:61 | one wrapping addition keeps the running sum equal to the wrapped exact sum |
| Heap.WrapStep | Main.java:64 | one `size += sub` with a wrapped addend keeps the running size equal to the wrapped exact size |
| Heap.FileSystem.WeightIsSize | Main.java:60-68 | the size summed over the objects equals `Size` of the tree they stand for |
| Heap.FileSystem.State | Main.java:82-84 | the objects stand for a session whose cursor names a reachable directory, and that directory is the tree below `current` |
| Heap.FileSystem.constructor | Main.java:86-89 | a new file system stands for the initial session: an empty root, with the cursor at the root |
| Heap.FileSystem.Cd | Main.java:91-103 | the new session and the "does not exist" report are exactly those of `Session.State.Cd` |
| Heap.FileSystem.CdUp | Main.java:92-95 | the `..` branch moves to the parent, or stays at the root, as `Session.State.Cd("..")` does |
| Heap.FileSystem.CdInto | Main.java:96-102 | the other branch enters the subdirectory or reports it missing, as `Session.State.Cd` does |
| Heap.FileSystem.Ls | Main.java:105-107 | the file names and folder names of the current directory |
| Heap.FileSystem.Size | Main.java:109-111 | the aggregate size of the current directory, wrapped to a Java `int` |
| Heap.FileSystem.CreateFile | Main.java:113-115 | the session moves exactly as `Session.State.CreateFile` |
| Heap.FileSystem.CreateFolder | Main.java:117-119 | the session moves exactly as `Session.State.CreateFolder`; only fresh objects are added |
| Heap.FileSystem.DeleteFile | Main.java:121-123 | the session moves exactly as `Session.State.DeleteFile` |
| Heap.FileSystem.DeleteFolder | Main.java:125-127 | the session moves exactly as `Session.State.DeleteFolder` |
| Shell.DispatchTable | Main.java:159-199 | the decision table, as an if-and-only-if for each command with its arguments |
| Shell.Effect | Main.java:173-193 | the mutating commands never move the cursor |
| Shell.StepFrame | Main.java:163-199 | `cd` never changes the tree; mutations never move the cursor and write nothing; every other command leaves the session as it was; a bad size only reports "invalid format"; an ignored line does nothing |
| Shell.RunAfterExit | Main.java:195-196 | once `exit` is met, later lines change nothing |
| Shell.RunNext | Main.java:154-199 | a line before any `exit` that is not `exit` is one step of the session |
| Shell.ExitEnds | Main.java:195-196 | an `exit` line ends the run with the session and output it had reached |
| Shell.IgnoredLine | Main.java:159-161 | a line the table ignores, such as an empty one, an unknown word or a wrong arity, changes neither the session nor the output |
| Shell.BareCd | Main.java:163-168 | in any session, a `cd` line without exactly one argument acts as `cd "cd"`: it enters a subdirectory called "cd" when there is one, and otherwise stays put and reports a missing directory |
| Shell.BareCdRuns | Main.java:163-168 | two whole runs as illustration: a bare `cd` at an empty root reports a missing directory, and after `createfolder cd` it enters that folder |
| Shell.App.constructor | Main.java:134-136 | a new application holds a fresh file system in the initial session |
| Shell.App.Start | Main.java:150-201 | the help text, then exactly what `Run` writes over the lines, and the final session is that of `Run` |
| Shell.App.Execute | Main.java:163-199 | the single call made for one command moves the session and writes exactly as `Step` does |
| Shell.App.Move | Main.java:163-168 | `cd` moves the objects and reports as `Step` of a `cd` does |
| Shell.App.Query | Main.java:169-172 | `ls`, `size`, `help`, a bad size or an ignored line write what `Reply` says, and change nothing |
| Shell.App.Mutate | Main.java:173-193 | `createfile`, `createfolder`, `delete f` and `delete d` move the objects exactly as `Effect` does |

## Left out

- Console I/O: the model returns what is printed as values instead. `ls` returns two name sets, `size` returns an `int` (`SizeIs`), and a missing `cd` target gives `NoSuchDirectory`. The words of the messages and of the help text (Main.java:138-148) are not modelled.
- HashMap iteration order: listings are sets. The size loop is proved for any visiting order.
- Reading lines with `Scanner` and splitting them with `split("\\s+")` happen outside the model, which takes each line as a sequence of tokens.
- `Integer.parseInt` is the parameter `parse`, where `None` stands for `NumberFormatException`.
- Sizes are unbounded integers: `parse` and `Dir.files` may hold values outside the 32-bit range that `Integer.parseInt` and `int fileSize` never produce. On Java inputs the model behaves the same; only the reported aggregate size is wrapped to 32 bits (`Wrap32`).
- Shell.App.Start: it takes the lines as a finite sequence and stops at their end. The Java `Scanner` throws at the end of input instead.
- Heap.Directory.GetDirectorySize: it also takes ghost parameters: the file system whose objects it reads, and the exact weight it is proved to wrap.
- The `File` record is reduced to its size, because its name always equals its key.
- The `directoryName` getter and `getDirectoryParent` are not separate members. The name is kept as a field and is not otherwise used, and the parent is read directly in `CdUp`.
- `Main.main` and the wiring of `App` into it are left out; they only create and start the application.
- Shell.Dispatch and Shell.App.Execute: the single if-chain of `start` is split into two parts. The decision is `Dispatch` and the call is `Execute`. Between them they make the same single call, or none.
