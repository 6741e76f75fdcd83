# Smashed Pumpkin: a verified model

Smashed Pumpkin is a desktop manager for Pumpkin game servers. This project models its most intricate parts in Dafny
and proves what they promise: the decoder of saved terrain, the protocols with the server process and its map
plugin, and the stores whose indexes must agree. `dafny verify dfyconfig.toml` checks all of it.

**Saved terrain** (`bytes`, `bits`, `xxhash`, `xxhash_plain`, `lz4`, `lz4_plain`, `lz4stream`, `lz4_frames`, `nbt`,
`nbt_bytes`, `nbt_reader`, `packed`, `cells`, `surface`, `terrain`, `terrain_decoder`, `written_chunk`, `chunk_tree`).
Chunks are NBT trees, compressed with the Java LZ4Block framing. Each layer has a mathematical meaning (a block of
literals and matches, a stream of frames, a tree, a list of states, the highest block of a column), a writer, and
imperative loops over cursors, buffers and arrays that are proved to compute the meaning. The LZ4 block format, XXH32
and the NBT tags are stated independently of the loops. `DecodeTerrain` ties them together: the byte-level decoder
equals the meaning of the parsed tree, whose columns show the highest visible block. Files ending in `_plain`, `_bytes`
and `_frames`, `cells` and `written_chunk` write the formats out in literal bytes, and `ChunkTree.WrittenIsShown` says
of such a chunk, in bytes and blocks alone, what is shown.

**Protocols** (`bridge_control`, `sampler`, `lifecycle`, `command_tracker`). Each is a class whose callbacks refine a
step function, and theorems about every run of steps: commands that alternate, samples that keep their phase, a stop
that is written once, replies that are matched in order.

**Stores** (`names`, `playtime`, `players`, `player_totals`, `player_lookup`, `player_sketch`, `player_list`, `toml`,
`lock_text`, `lock_known`, `lock_size`, `lockfile`, `plugin_files`, `lock_rules`, `plugin_store`, `ports`,
`network_ports`, `regions`, `worlds`, `world_import`). Player states with two indexes, merging and renaming; the plugin
lockfile down to its text, which a TOML reader is proved to read back; automatic ports; the inventory of saved chunks;
the import and removal of world folders in a file tree where any operation may fail.

Where the code does not keep a promise on all inputs, the model keeps the code and states when it does:

- `Players.PlayerStore.Ensure`: a new state is put under a main key without a look at who has it. The indexes stay
  valid if and only if no index needs the state that is replaced; `Players.FormerNameReused` is a run, for any UUID and
  names, in which they do not.
- `Players.SaveAndLoad`: a player whose main key is `__deleted` is saved into the group of the deleted keys, which
  loading skips. Every player survives if and only if none has that key; `Players.ReservedNameIsLost` is a run in which
  one is lost, and its name is blocked from then on.
- `PlayerList.Reconcile`: an entry of a list can put a new state in the place of one that the indexes still need, as
  above. A list is read to its end if and only if `PlayerList.FirstClash`, a function of the list and of the keys and
  UUIDs in the tables, is its length; a simpler condition that suffices is that the list leaves room
  (`PlayerList.AllFree`). `PlayerList.FormerNameListed` is a table and a list at which reading stops.
- `Ports.ApplyTwice`: members are found by name as well, but only IDs count when the ports in use are collected. A
  second application changes nothing if and only if `Ports.Settles`, which a caller can check before the first, as long
  as there is a port for every member (`Ports.Roomy`); `Ports.NamedMemberNeverSettles` and `Ports.PrimaryInTheWay` are
  instances in which it does not.
- `LockRules.RenameKeeps`: a rename keeps active filenames distinct if and only if the new one is free. Otherwise two
  entries have one file, which can no longer be removed: `PluginStore.RenameOntoAnother`.
- `Regions.World.AddRegion`: a second file for a region keeps list and lookup in agreement if and only if it lacks no
  chunk that was saved for the region before; `Regions.SecondFileHides` is a scan of two files in which it does.
- `BridgeControl.GuessDecides`: before the first acknowledgement the controller knows the host's state if and only if
  its guess was right. With a bridge file unchanged since the process started, it is wrong exactly for a running server
  whose bridge is to be disabled and already was (`BridgeControl.FileDecides`); `BridgeControl.FirstGuessCanBeWrong` is
  such a case. Of a later process it knows the state if and only if that has acknowledged a command, or the file was in
  the wanted state as it started (`BridgeControl.EveryProcessIsKnown`).
- `PlayerTotals.Track`: the total play time is conserved but for a state that a new one replaces.
- `Terrain.TerrainShowsSurface`: a chunk with invalid palette indices is refused if and only if one would be seen;
  `Surface.SuchSection` is a section whose invalid indices are hidden.
- `PluginStore.PluginStore.Record`, `Rename` and `Remove`: a lockfile of more than 2 MiB is written but not loaded
  again. What was recorded is found if and only if the text written is not larger (`PluginStore.Fits`), which a caller
  can check before; `PluginStore.OversizedIsLost` is a record that is lost.
- `Worlds.Storage.RemoveFolder` and `CopyFolder` have the same depth limit, so what a copy leaves can be removed
  (`Worlds.PartialIsShallow`).

Line numbers in comments are those of the source file that the module names.

## Model

| member | source | states |
|---|---|---|
| Lz4.DecodeBlock | src/minimap-terrain.c:201-219 | Block decoding succeeds exactly when the source is the encoding of a block whose expansion has as many bytes as the buffer, and then the buffer holds that expansion; a refusal means no such block exists |
| Lz4.DecodeMeaning | src/minimap-terrain.c:201-219 | What the loop computes is a content the source encodes, and it finds nothing only when there is none of that length |
| Lz4.ParseEncode | src/minimap-terrain.c:204-217 | A well-formed block (literal runs, distances, match lengths of at least 4) is recovered whole from its encoding |
| Lz4.EncodeParse | src/minimap-terrain.c:204-217 | A source that is read as a block is byte for byte the encoding of that block |
| Lz4.EncodesIsFunctional | src/minimap-terrain.c:201-219 | A source encodes at most one content |
| Lz4.DecodeIsExpand | src/minimap-terrain.c:203-218 | Decoding into the rest of a buffer yields the expansion of the parsed block after what is already written, if its matches start inside the output and the length is exact |
| Lz4.CopyIsPeriodic | src/minimap-terrain.c:216 | A copied match repeats with the period of its distance, whether or not it overlaps what it copies from |
| Lz4Plain.EncodeIsPlain | src/minimap-terrain.c:203-217 | The encoding of a block is what the LZ4 block format describes, byte by byte: the token of two nibbles, lengths in runs of 255, the distance with its low byte first |
| Lz4Plain.DecodePlain | src/minimap-terrain.c:201-219 | Any block of this form whose matches start inside the output decodes, and the output is yielded token by token: the literals, then each byte of a match from as far back as its distance says |
| Lz4.ReadLengthLoop | src/minimap-terrain.c:206 | The 32-bit length sums equal the unbounded ones for sources up to 1 MiB, and the loop fails exactly when the bytes run out |
| XxHash.Checksum | src/minimap-terrain.c:186-200 | The lane, word and byte loops compute XXH32 (defined by consumption of the input, each byte once) with the Java seed, masked to 28 bits |
| XxHash.NoBitIsDropped | src/minimap-terrain.c:184 | Shift and rotation on 32 bits agree with bitwise OR and XOR of the shifted words |
| XxHashPlain.SameDigest | src/minimap-terrain.c:184-200 | For every input the checksum is XXH32 written as plain arithmetic, with every constant, rotation and lane spelled out, and with the Java seed and the 28 bits kept |
| Lz4Stream.DecompressLz4 | src/minimap-terrain.c:220-242 | The stream is accepted exactly when it is a run of valid frames that uses up the input, optionally closed by an empty terminator; the output is the in-order concatenation of the frame contents, at most 4 MiB |
| Lz4Stream.ReadFrame | src/minimap-terrain.c:228-239 | One frame is accepted exactly when its header, its payload and its checksum agree, and the rest of the stream follows it |
| Lz4Stream.Format.FrameIsUnique | src/minimap-terrain.c:226-239 | A header fixes the frame that starts with it: at most one frame and one rest |
| Lz4Frames.DecompressPieces | src/minimap-terrain.c:220-242 | Any blocks, each either packed (method byte 0x20 to 0x2F) or stored (0x10 to 0x1F) with its "LZ4Block" magic, its lengths and its checksum written low byte first, followed by nothing or by an empty block, decompress to their contents in order |
| Lz4Frames.RefuseWrong | src/minimap-terrain.c:226-239 | A stream is refused whose first block has another magic, another method byte, an impossible length or another checksum |
| Lz4Frames.ContentIsUnique | src/minimap-terrain.c:220-242 | A stream has at most one content |
| Nbt.ReadWritten | src/minimap-terrain.c:26-55 | The serialisation of any tree within the depth and value budgets, followed by any bytes, is consumed exactly, and its size is what the budget pays |
| Nbt.ReadIsWritten | src/minimap-terrain.c:26-55 | Whatever the walk consumes is exactly one well-formed tree within the budgets |
| NbtReader.Reader.Skip | src/minimap-terrain.c:26-55 | The in-place walk ends where the recogniser ends, with the budget it leaves |
| NbtReader.FindField | src/minimap-terrain.c:56-70 | The field loop returns what the recursive lookup finds |
| NbtReader.FieldIsChild | src/minimap-terrain.c:56-70 | On a tree the root walk has accepted, the lookup of a name is the first child of that name in the tree, and never fails for budget or depth |
| NbtReader.RootIsAccepted | src/minimap-terrain.c:144-149 | The root walk succeeds and uses up the input exactly when the input is one compound within the budgets |
| NbtBytes.NumbersRead | src/minimap-terrain.c:30-31 | Numbers of the six kinds take 1, 2, 4, 8, 4 and 8 bytes |
| NbtBytes.TextsRead | src/minimap-terrain.c:32 | A text is its length in two bytes, the higher first, and its bytes |
| NbtBytes.ArraysRead | src/minimap-terrain.c:33-38 | An array is its count in four bytes, the highest first, and elements of 1, 4 or 8 bytes |
| NbtBytes.DepthIsLimited | src/minimap-terrain.c:28-44 | Lists inside lists are read down to 32 levels and not to 33 |
| NbtBytes.BudgetIsLimited | src/minimap-terrain.c:28-44 | A list of bytes is read exactly when it has fewer than 200000 |
| NbtBytes.RootIsLimited | src/minimap-terrain.c:144 | Fewer than 4 bytes, more than 4 MiB or a first byte other than 10 are refused as an invalid root, and nothing else is |
| Packed.BitsFor | src/minimap-terrain.c:114 | The width is the least from 4 whose range covers the palette, and at most 12 |
| Packed.WordInBounds | src/minimap-terrain.c:126-129 | Every word read, the second word of a straddling state included, is inside the array |
| Packed.LayoutIsUnambiguous | src/minimap-terrain.c:117-118 | The two layouts have the same word count exactly when the width divides 64 |
| Packed.SameLayout | src/minimap-terrain.c:117-130 | Where the width divides 64 the two layouts decode every word array identically |
| Packed.PaddedRoundTrip | src/minimap-terrain.c:126-130 | Any 4096 states below 2^bits, packed with padding, are read back |
| Packed.StraddlingRoundTrip | src/minimap-terrain.c:126-130 | Any 4096 states below 2^bits, packed across word boundaries, are read back |
| Packed.WordsFit | src/minimap-terrain.c:126-130 | Both packings are genuine 64-bit words |
| Cells.StateIsNumber | src/minimap-terrain.c:126-130 | Whatever the bytes of the long array: the state of a cell, in either layout, is the number that its bits make, bit 0 of a word being the lowest bit of its last byte |
| Cells.StoredReads | src/minimap-terrain.c:114-130 | Any 4096 states, written bit by bit as the bytes of either layout, are read back from these bytes |
| Surface.ScanFinds | src/minimap-terrain.c:122-134 | Scanning a column finds the highest solid cell above what was seen, or none |
| Surface.ScanFailsExactlyWhen | src/minimap-terrain.c:122-134 | A scan fails exactly when the highest cell of the section that is not air, above what was seen, has an invalid palette index; an invalid index anywhere else in the column is not noticed |
| Surface.HiddenIndexIsNotNoticed | src/minimap-terrain.c:122-134 | A valid block on top of a section hides any invalid index below it: the column is not readable, and the scan succeeds |
| Surface.SuchSection | src/minimap-terrain.c:122-134 | A section of this kind |
| Surface.ScanExtendsSurface | src/minimap-terrain.c:120-135 | Whenever a scan succeeds, one more section extends the surface of the sections before it to that of all of them |
| Surface.OrderDoesNotMatter | src/minimap-terrain.c:120-135 | For sections with distinct Y the surface does not depend on their order, although the scan stops at what it has seen |
| Surface.SurfaceIsUnique | src/minimap-terrain.c:120-135 | A column has one surface |
| Terrain.TerrainShowsSurface | src/minimap-terrain.c:142-167 | A generated chunk with sound sections is decoded if and only if no section is garbled where it would be seen, and then every column shows the highest block that is not air over all sections |
| Terrain.DecodedShowsSurface | src/minimap-terrain.c:142-167 | Whatever chunk is decoded, its sections are sound and every column shows their surface |
| Terrain.ReadableIsNotGarbled | src/minimap-terrain.c:122-134 | Where every index of every column is valid, nothing is garbled |
| Terrain.ProcessShows | src/minimap-terrain.c:158-166 | The section loop fails exactly at a garbled section, and otherwise shows the surface of all sections |
| ChunkTree.WrittenIsShown | src/minimap-terrain.c:97-167 | A chunk written byte by byte, of up to 64 sections of distinct Y in any order, old and new naming, palettes of 1 to 4096 names, both layouts, Y of one or four bytes: the bytes are decoded and every column shows its highest block that is not air, in the colour of its name |
| ChunkTree.SectionIsRefused | src/minimap-terrain.c:99-107 | A section with no palette entry or more than 4096, or with an int Y outside -2048 .. 2047, is malformed |
| ChunkTree.ChunkIsRefused | src/minimap-terrain.c:151-156 | A chunk of more than 64 sections, or of a status other than full, is not shown |
| TerrainDecoder.DecodeTerrain | src/minimap-terrain.c:142-167 | The byte-level decoder, every error path included, equals the meaning of the parsed tree |
| TerrainDecoder.SectionPixels | src/minimap-terrain.c:97-137 | One section read in place gives the columns that its tree gives, or is refused exactly when the tree is malformed |
| TerrainDecoder.ReadState | src/minimap-terrain.c:126-130 | A state read from the bytes of the long array is the number made of the bits of its cell in these bytes, and so the packed state |
| BridgeControl.StepKeepsConsistent | src/minimap-bridge-control.c:40-132 | Every step keeps: idle iff no pending target iff no timer |
| BridgeControl.EveryStateIsConsistent | src/minimap-bridge-control.c:40-132 | Every state of every run is idle iff it has no pending target iff it has no timer |
| BridgeControl.RunStaysInStep | src/minimap-bridge-control.c:40-132 | Within one process with no timeout or failure reply, the commands alternate, and after the first acknowledgement `loaded` is the state of the host whenever the controller is idle |
| BridgeControl.LoadedIsRight | src/minimap-bridge-control.c:51-112 | Over any calm run from where the name is known: loaded is the state of the host exactly when a command was acknowledged or it was so at the start |
| BridgeControl.GuessDecides | src/minimap-bridge-control.c:91-97 | Over any calm run from the creation of the controller: from the step at which the name becomes known, loaded is the state of the host exactly when a command was acknowledged or the guess of line 93 was right |
| BridgeControl.GuessIsWrongExactlyWhen | src/minimap-bridge-control.c:91-97 | For a bridge file unchanged since the process started, the guess of line 93 is wrong exactly when the server runs, the bridge is to be disabled and nothing had to be changed |
| BridgeControl.FileDecides | src/minimap-bridge-control.c:91-97 | Over any calm run with such a file: loaded is the state of the host exactly when a command was acknowledged or that was not the case when the name became known |
| BridgeControl.FirstGuessCanBeWrong | src/minimap-bridge-control.c:91-97 | A reachable case in which the guess is wrong: a bridge that was disabled all along is taken to be loaded |
| BridgeControl.AnswerAcknowledges | src/minimap-bridge-control.c:51-63 | What the host logs is always taken as the acknowledgement of the pending request |
| BridgeControl.TwoAnswersSuffice | src/minimap-bridge-control.c:51-132 | Over any calm run of a steady server after the last toggle, with any other log output and state changes in between: the host answers at most twice, an idle controller has loaded == enabled, and after the second answer, or any answer with nothing pending, so has the host |
| BridgeControl.NewProcess | src/minimap-bridge-control.c:78-97 | For a new process, once the name is known: nothing is sent or pending, an earlier failure is forgotten, and loaded is the state of the host exactly when the bridge file was in the wanted state as it started, or there is no process |
| BridgeControl.CommandsAre | src/minimap-bridge-control.c:83-104 | A command is sent only to a running host that is free to act; the bridge is loaded from the file it has, and unloaded by its name |
| BridgeControl.EveryProcessIsKnown | src/minimap-bridge-control.c:51-112 | Over the whole life of a server, whatever its processes: loaded is the state of the present host exactly when this process has acknowledged a command, was started with the file in the wanted state, or does not exist; the commands it is sent alternate |
| BridgeControl.GivesUp | src/minimap-bridge-control.c:40-70 | After a failure or a timeout nothing is written until the user toggles or the process changes |
| BridgeControl.RunSettles | src/minimap-bridge-control.c:51-132 | What every state of such a run keeps: after one answer no request is for the wrong state |
| BridgeControl.Controller.SyncBridge | src/minimap-bridge-control.c:72-112 | The imperative synchronisation refines the step function |
| BridgeControl.Controller.OnLogLine | src/minimap-bridge-control.c:51-70 | The log callback refines its step |
| BridgeControl.Controller.OnTimeout | src/minimap-bridge-control.c:40-49 | The timer callback refines its step |
| BridgeControl.Controller.SetEnabled | src/minimap-bridge-control.c:119-132 | The toggle refines its step |
| Sampler.OnTime | plugins/map-bridge/src/lib.rs:141-158 | After a change of rate, with ticks at most one gap (no longer than the period) apart, the n-th sample lies in [s1+(n-1)p, s1+(n-1)p+gap), and none that is due is missing |
| Sampler.NeverTooFast | plugins/map-bridge/src/lib.rs:141-158 | For arbitrary tick times any n samples in a row satisfy n <= (sn-s1)/p + 3, and n <= 3 when the clock went back in between |
| Sampler.SecondHolds | plugins/map-bridge/src/lib.rs:141-158 | At a rate of 2 to 20 a second, no second holds more than the rate and three samples, whatever the ticks |
| Sampler.SecondIsFilled | plugins/map-bridge/src/lib.rs:141-158 | With prompt ticks, one second after the first sample as many more as the rate have been taken |
| Sampler.RepeatsRunOnce | plugins/map-bridge/src/lib.rs:63-73 | Over a series of polled requests no action runs twice in a row, and each runs |
| Sampler.Snapshotter.Snapshot | plugins/map-bridge/src/lib.rs:127-158 | The guarded snapshot refines the tick; the guard is released on every path and a call made meanwhile does nothing |
| Lifecycle.StepKeepsInv | src/server.c:1730-2030 | Every step keeps: a pending restart implies not running, no stop requested and auto-restart on; a stop timer or timeout implies running with a stop requested |
| Lifecycle.EveryStateIsSound | src/server.c:1730-2030 | Every state of every run keeps the relations between restart, timers, stop requests and the log |
| Lifecycle.NoSpawnInMaintenance | src/server.c:1305-1319 | While maintenance is held no step spawns a process |
| Lifecycle.RunsAreOrderly | src/server.c:1772-2030 | Over any run: nothing is spawned between a stop and the next start by the user, and after "stop" has been written nothing more is written in that session |
| Lifecycle.EveryEventIsAnswered | src/server.c:1730-2030 | Over any run every event has the effect that the log before it asks for: an exit without a stop since the last start, with automatic restart on, leaves a restart pending, and no other exit does; the first stop of a running server with an input writes "stop"; a due restart spawns |
| Lifecycle.RestartStaysPending | src/server.c:1753-1758 | A pending restart stays pending until it is due, or the user starts, stops or turns automatic restart off |
| Lifecycle.CrashedServerComesBack | src/server.c:1753-1758 | A server that exits unasked, with automatic restart on, is spawned again when the restart is due |
| Lifecycle.Server.StartProcess | src/server.c:1772-1865 | The start refines its step |
| Lifecycle.Server.StopProcess | src/server.c:1900-1928 | The stop refines its step |
| Lifecycle.Server.ForceStopProcess | src/server.c:1930-1947 | The forced stop refines its step |
| Lifecycle.Server.OnExit | src/server.c:1730-1769 | The exit callback refines its step |
| Lifecycle.Server.OnRestartDue | src/server.c:1305-1319 | The restart callback refines its step |
| Lifecycle.Server.OnDeadline | src/server.c:1867-1882 | The deadline callback refines its step |
| Lifecycle.Server.OnStopWriteEnds | src/server.c:1884-1898 | The write callback refines its step |
| Lifecycle.Server.TakeMaintenance | src/server.c:1961-1975 | Maintenance is taken exactly when no restart is pending and none is held |
| Lifecycle.Server.Handle | src/server.c:1730-2030 | Every request of the user and every callback is one step of the runs above |
| Lifecycle.Server.SendCommand | src/server.c:2001-2030 | A command is accepted only by a running server that is not stopping |
| CommandTracker.FirstInFirstOut | src/server-command-tracker.c:56-80 | Over any run in which nothing is given up, the n-th matched reply belongs to the n-th command |
| CommandTracker.LatestAreKept | src/server-command-tracker.c:42-80 | Whatever is given up, the commands waited for are the latest ones, 32 at most |
| CommandTracker.ThirtyTwoWait | src/server-command-tracker.c:56-68 | Of commands with no reply and no poll in between, exactly the last 32 are waited for |
| CommandTracker.ReadyWhenOverdue | src/server-command-tracker.c:42-54 | With a clock that does not go back, polling goes on exactly when every unanswered command is 30 seconds old |
| CommandTracker.Tracker.PollReady | src/server-command-tracker.c:42-54 | Expired commands leave the queue of that kind only |
| CommandTracker.Tracker.Track | src/server-command-tracker.c:56-68 | A command joins the queue of its kind, at the cost of the oldest when it is full |
| CommandTracker.Tracker.ConsumeReply | src/server-command-tracker.c:70-80 | A reply takes the oldest command of its kind and says whether it was a poll |
| Players.PlayerStore.Ensure | src/window-players.c:169-255 | The state found or made, both indexes after it, what is merged, which fields may change; a set UUID never changes, the state returned has the UUID asked for, and the indexes stay valid if and only if no new state takes the main key of one that an index still needs |
| Players.PlayerStore.Merge | src/window-players.c:91-145 | The play time of the two is added, and the state is online if one was, since the earlier of the sessions that run; every index entry for the merged state now points to the other |
| Players.PlayerStore.Take | src/window-players.c:180-211 | The UUID decides which state is found; a name only when the UUIDs can be one player's |
| Players.PlayerStore.Create | src/window-players.c:212-219 | A new state keeps the other entries valid if and only if no index needs the state it replaces |
| Players.FormerNameReused | src/window-players.c:212-218 | For any UUID and any two names with different keys: a player takes another name, someone else takes the former one, and the indexes are no longer valid |
| Names.SameCaseSameKey | src/window.c:2535-2549 | A text equal to a key up to ASCII case has that key |
| Names.KeysAgree | src/window.c:2535-2549 | Two texts have one key exactly when they differ in white space around them and in the case of ASCII letters only |
| Players.PlayerState.Absorb | src/window-players.c:97-141 | What remains after a merge: the sum of both play times, the earlier running session, and name and UUID only where they were missing |
| Players.PlayerState.MarkOnline | src/window-players.c:257-284 | Being seen online starts a session unless one runs |
| Players.PlayerState.MarkOffline | src/window-players.c:286-316 | Going offline adds the whole seconds of the session and ends it |
| Players.PlayerStore.Load | src/window-players.c:382-471 | Loading any file of distinct groups gives valid indexes and a state for each group that is kept, never for the reserved group `__deleted` or an empty key; every text of the reserved group becomes a deleted key, and there are no others |
| Players.SaveAndLoad | src/window-players.c:382-507 | A table saved and loaded, in any group order: every player keeps name, UUID and the effective play time, counted once and with no session, but for one under the main key `__deleted`. All survive if and only if there is no such player; otherwise it is gone and its name and UUID are blocked. Deleted keys stay deleted |
| Players.ReservedNameIsLost | src/window-players.c:404-427 | For any name with the key `__deleted`: seen online, saved and loaded, the player is gone and is not tracked again |
| Players.ReservedIsValid | src/window.c:2535-2549 | `__deleted` itself is such a name |
| Players.PlayerStore.ReadDeleted | src/window-players.c:404-418 | The deleted keys grow by exactly the keys of the texts |
| Players.DeletedKept | src/window-players.c:404-418 | The deleted keys read from a file that was saved are those of the store, and the texts of a player in their group |
| Players.PlayerStore.Forget | src/window.c:2617-2686 | Deleting the tracking of a player removes its state, every index entry for it and nothing else, and blocks its main key, name and UUID |
| PlayTime.PlaytimeIsSumOfSessions | src/window-players.c:257-316 | Over any run of an unmerged player, restarts of the machine between a save and a load included, play time is the sum of the whole seconds of its sessions |
| PlayTime.SeenAgain | src/window-players.c:257-284 | A repeated sighting changes neither the total nor the running session |
| PlayTime.ReloadCountsOnce | src/window-players.c:33-47 | Saving while online and reloading counts the session once |
| PlayTime.LessThanASecondIsLost | src/window-players.c:286-316 | Play time is at most the time online, and less than a second per session below it |
| PlayTime.AbsorbAdds | src/window-players.c:126-137 | Merging adds what both have played, and the session that goes on is the one that started first |
| PlayTime.AbsorbedSession | src/window-players.c:126-137 | A session that lies in the one it is merged into is counted once |
| PlayerTotals.Track | src/window-players.c:169-255 | The total play time of the table after a player is tracked is what it was, less that of a state that lines 212-218 replace |
| PlayerTotals.TrackAll | src/window-players.c:169-255 | Over any run of calls, up to the first that replaces a state, the total play time of the table is conserved, whatever is merged and renamed |
| PlayerTotals.Leave | src/window-players.c:286-316 | Going offline adds the whole seconds of the session to the total, and nothing else |
| PlayerTotals.MergedTotal | src/window-players.c:180-211 | A player known by UUID in one state and by name in another: one call leaves one state, with the play time of both |
| PlayerLookup.FoundAgain | src/window-players.c:169-255 | A player that was tracked is found again by UUID in any case, by name and by both, and it is the same state |
| PlayerLookup.OtherIsOther | src/window-players.c:146-211 | Another account of the same name is another player: it takes the name, the first keeps its UUID and all its fields |
| PlayerList.Reconcile | src/window-player-events.c:24-70 | Reading stops at exactly the first entry whose new state would take the place of one that an index needs, which the keys and UUIDs of the tables before the call decide (`FirstClash`), and never for a list that leaves room. Every entry that is read has one state, which is online and which its UUID and its name lead to, and no other state is present; when the list is complete exactly these are online and the sessions of the others are counted, and otherwise nobody goes offline; no session restarts; the indexes stay valid |
| PlayerList.ReadEntries | src/window-player-events.c:40-58 | What the entries do to the table, over any list: the entries before the first clash are all placed, at a clash the table is such that a new state would displace another, and there is none for a list that leaves room (lists that mix entries with and without a UUID included) |
| PlayerList.ReadEntry | src/window-player-events.c:42-57 | One entry: read exactly when its new state displaces none that an index needs; then its player is in the table, present, online and under the name given, and otherwise tables and states are unchanged |
| PlayerList.FormerNameListed | src/window-player-events.c:40-58 | A list at which reading stops: for any UUID and any two names with different keys, a player takes another name and the former one is listed without a UUID |
| PlayerSketch.SketchDecides | src/window-players.c:169-219 | Which state is found, which is merged and whether a new one displaces another depends only on the UUIDs and keys of the tables |
| PlayerSketch.StepIs | src/window-players.c:169-255 | After a player is found or made, these keys and UUIDs are those of one step from the ones before, so the first clash of a whole list can be told before it is read |
| PlayerList.ListedNameLeads | src/window-player-events.c:40-58 | A name listed, with no UUID after it in the list, leads to a state that is present |
| PlayerList.PlacedNext | src/window-players.c:169-255 | What the UUID and the name of an earlier entry lead to survives a later entry, unless that one has a UUID and takes the name or renames the account |
| PlayerList.OthersLeave | src/window-player-events.c:59-68 | Exactly the online states that were not listed go offline |
| PlayerList.FreeIsSound | src/window-players.c:212-218 | In a list that leaves room no entry is put under a key in use |
| PlayerList.FreeStays | src/window-players.c:212-218 | The list still leaves room after any of its players is entered |
| Toml.ValueRead | src/plugin-store.c:317-370 | Whatever is printed of strings without NUL, 64-bit integers, booleans and nested arrays and tables is read back by a TOML v1.0.0 reader ("Keys", "String", "Array", "Inline Table") as the same value, and leaves the following text unread |
| LockText.Output.AppendString | src/plugin-store.c:295-315 | The character loop appends the escaped string |
| LockText.Output.AppendValue | src/plugin-store.c:317-370 | The recursive printer appends the printed value |
| LockText.RecordedRead | src/plugin-store.c:380-408 | An entry in the form of append_metadata, with its bare id key, is read as the table of all its fields, whatever follows |
| LockText.TextRead | src/plugin-store.c:422-470 | A lockfile that is written, of lines of either form, is read back as the same keys and plugins |
| LockKnown.FirstRecordWrites | src/plugin-store.c:380-483 | From no lockfile at all, the very text that the record of a plugin writes, character by character, where its fields need no escapes |
| LockKnown.ForeignIsLeftAlone | src/plugin-store.c:150-169 | A lockfile of another version than 1, or with an entry that is no plugin's, is neither changed by a record, a rename or a removal nor used by a lookup |
| Lockfile.EditedAt | src/plugin-store.c:433-464 | An operation edits one entry, and all others stay as and where they are |
| Lockfile.EntryField | src/plugin-store.c:380-408 | Each field written is the metadata's where that knows it, and the previous entry's otherwise |
| Lockfile.EntryReads | src/plugin-store.c:179-195 | What is written of a plugin is a valid entry and reads back as its metadata |
| PluginFiles.ActiveNameIs | src/plugin-store.c:45-58 | The active filename: a file with one of the two endings is that file without it, and any other file is itself |
| PluginFiles.SameFileIs | src/plugin-store.c:60-66 | Two filenames are of one plugin exactly when they spell the same active filename |
| PluginFiles.SafeStaysInside | src/plugin-store.c:68-75 | A filename is safe exactly when it has no colon and leads, from any folder, to the entry of that name in it |
| PluginFiles.AcceptedIsEntry | src/plugin-store.c:96-114 | An entry is accepted exactly when it is that of some plugin, and then of the one it is read as |
| PluginFiles.RecordableHasEntry | src/plugin-store.c:486-492 | A plugin is recordable exactly when some entry would be accepted as its |
| LockRules.RecordAllowed | src/plugin-store.c:439-459 | A record is refused exactly when another plugin has its active filename |
| LockRules.RecordKeeps | src/plugin-store.c:433-471 | After a record: distinct keys equal to the public IDs, distinct active filenames, and the recorded entry |
| LockRules.RemoveKeeps | src/plugin-store.c:433-464 | After a removal the rules hold and no entry has that active filename |
| LockRules.RenameKeeps | src/plugin-store.c:450-453 | After a rename the rules hold if and only if no other plugin has the new active filename |
| LockRules.RenameBlocks | src/plugin-store.c:430-453 | After a rename onto the file of another plugin, that file can be neither removed nor renamed |
| LockRules.SameNameKeeps | src/plugin-store.c:450-453 | A rename to the same active filename always keeps them |
| LockRules.UnknownKept | src/plugin-store.c:394-407 | Fields the metadata does not know are kept by every operation |
| LockRules.ThereAndBack | src/plugin-store.c:450-453 | Renaming there and back restores the table as a map |
| LockRules.LookupAfterRecord | src/plugin-store.c:207-222 | A lookup of the recorded file, enabled or not, returns the recorded metadata |
| LockRules.LookupFinds | src/plugin-store.c:207-222 | A lookup returns the one entry with that active filename |
| LockRules.OthersFound | src/plugin-store.c:207-222 | A record changes no other plugin's lookup |
| PluginStore.PluginStore.AppendMetadata | src/plugin-store.c:380-408 | The text of a recorded or renamed entry: the bare id, the known fields that are there, and the fields of the previous entry that are unknown |
| PluginStore.WrittenText | src/plugin-store.c:422-480 | The text built, recorded entries with a bare id and all others with quoted keys, is parsed as the document after the operation, and loads again |
| PluginStore.PluginStore.Modify | src/plugin-store.c:413-483 | The file is rewritten to the text of the document after the operation, or left alone; refused exactly for a file that cannot be loaded, duplicates, a collision or a file that cannot be replaced; the check of the text that was built never fails, and the new file can be loaded again if and only if its text is at most 2 MiB, which the operation and the document before decide |
| PluginStore.PluginStore.Record | src/plugin-store.c:485-494 | A record keeps the rules, and is found afterwards, if and only if the new text is not oversized; nothing else makes it fail once it is accepted |
| PluginStore.PluginStore.Rename | src/plugin-store.c:496-504 | A rename keeps the rules for the same active filename, if and only if the new text is not oversized |
| PluginStore.RenameOntoAnother | src/plugin-store.c:485-510 | From no lockfile at all, for any two plugins: both are recorded and one is renamed onto the other, which nothing refuses while the lockfile is not oversized, and then the file cannot be removed |
| PluginStore.PluginStore.Remove | src/plugin-store.c:506-510 | Nothing is found after a removal, and the rules hold if and only if the new text is not oversized |
| PluginStore.PluginStore.FindFile | src/plugin-store.c:197-235 | The lookup loop: the one entry with that active filename, else the key file beside the plugin |
| PluginStore.ShortFit | src/plugin-store.c:141-145 | Two plugins whose texts have at most 1000 characters each fit the limit |
| PluginStore.OversizedIsLost | src/plugin-store.c:141-145 | From no lockfile at all, for any plugin whose name is longer than the limit: it is recorded, and then it is not found and cannot be recorded again |
| LockSize.TextClean | src/plugin-store.c:295-370 | Whatever the lines, no NUL is ever written |
| Ports.AllocateIsFirstFit | src/window-networks.c:306-350 | Unless the ports run out, the primary gets the default port and the k-th other member the k-th smallest port above it that no server outside uses |
| Ports.NextIsKth | src/window-networks.c:228-240 | First fit from the last port given takes the next free rank |
| Ports.PortsAreDistinct | src/window-networks.c:306-350 | No two members get the same port of a protocol |
| Ports.OnePrimary | src/window-networks.c:325-331 | At most one server is the primary, however members are given |
| Ports.ReserveNext | src/window-networks.c:228-240 | The least free port from 1 to 65535 that is not below the start is taken; when there is none, nothing is, and the result is the start within these bounds |
| Ports.ApplyAutoPorts | src/window-networks.c:275-373 | Every member has the ports allocated to its last place, no other server changes, and the result is false exactly when every member had its ports before |
| NetworkPorts.NumberNetwork | src/window-networks.c:275-373 | A network whose ranges no server with another ID uses: the leader gets 25565, 19132 and 25575, and the other members the numbers after these, in their order |
| NetworkPorts.AvoidClashes | src/window-networks.c:275-373 | Every member that does not lead is put on ports from 1 to 65535 that no server with another ID has, and servers that are not members keep theirs |
| NetworkPorts.FindsFirst | src/window-networks.c:181-217 | A token finds the first server whose ID or name it is, exactly or but for white space and case, and nothing if there is none |
| Ports.ApplyTwice | src/window-networks.c:275-373 | For any servers, members and proxy whose protocols have a free port for every member: a second application changes nothing if and only if no server but the primary is a member twice, no member but the primary has an ID that lines 292-300 do not find in the network, and such a primary did not hold a port that another member is to have |
| Ports.FewAreRoomy | src/window-networks.c:275-373 | 39960 servers and members together always leave that many ports |
| Ports.IncoherentMoves | src/window-networks.c:292-300 | Otherwise than by such a primary, a network that does not settle is never up to date: every application moves a member |
| Ports.PortMatters | src/window-networks.c:228-240 | One more port in use changes the allocation exactly when it is one of the ports given out |
| Ports.NamedMemberNeverSettles | src/window-networks.c:292-322 | A member given by its name moves at every application: an instance |
| Ports.PrimaryInTheWay | src/window-networks.c:292-322 | A primary given by its name that holds the next port makes the second application move a member: an instance |
| Regions.SlotIsChunk | src/minimap-terrain.c:288-295 | Every chunk, negative coordinates included, has a slot below 1024 of its region, and is the chunk of that slot |
| Regions.ChunkIsSlot | src/minimap-store.c:473-476 | Every slot of a region is that of the chunk the scan counts there |
| Regions.ChunksAreThoseOf | src/minimap-store.c:473-477 | The chunks listed are exactly those of the present slots |
| Regions.PresentIs | src/minimap-store.c:474-475 | A slot is present exactly when its sectors of 4096 bytes lie behind the two of the header and within the file |
| Regions.RevisionTells | src/minimap-store.c:479-486 | A chunk that was saved again, at another time or at another place in the file, has another revision, but that 0 and 1 are one |
| Regions.ModifiedTells | src/minimap-store.c:479-486 | For a slot without a time, another modification time of the file is another revision |
| Regions.IdentityTells | src/minimap-store.c:479-486 | A file whose identity has another hash has other revisions, if its header and time are the same |
| Regions.World.ReadRegion | src/minimap-store.c:455-493 | The scan loop builds list, mask and revisions together |
| Regions.PictureOf | src/minimap-store.c:468-478 | Pixel by pixel, the picture of a region shows exactly the chunks that are listed, row by row from its corner |
| Regions.World.AddRegion | src/minimap-store.c:455-493 | List, masks and revisions agree afterwards if and only if no chunk saved for the region before is missing in the file; always for a region scanned first |
| Regions.SecondFileHides | src/minimap-store.c:455-493 | For any two files of one region, the second without a chunk of the first: the chunk stays listed, and the lookup no longer finds it |
| Regions.World.SavedChunk | src/window-minimap.c:223-238 | A chunk is saved exactly when it is in the list, through the lazily built index |
| Regions.IndexFinds | src/window-minimap.c:227-236 | The packed 64-bit keys find the tile of a region, negative coordinates included |
| Worlds.Storage.Import | src/world-store.c:352-405 | Success adds exactly one tree to the storage, equal to the source, which holds no links or special files; otherwise the storage is as before unless the cleanup fails, which it never does for depth. When the system refuses nothing that is in order, a source is refused exactly for the reasons of lines 361-384, every plain source within the depth is imported, and a failure leaves the storage as it was |
| WorldImport.ImportWorld | src/world-store.c:352-405 | A world folder elsewhere, imported into a server without a world of its name: if it has only folders and files and no folder more than 128 levels down, `worlds` has it under its name entry by entry, and otherwise nothing is left of it; nothing else changes |
| Worlds.Storage.CopyFolder | src/world-store.c:324-350 | Success copies the whole tree; whatever is left after a failure is part of the source, without links and within the depth; nothing else changes; when the system refuses nothing, it succeeds exactly for a plain source within the depth |
| Worlds.PartialIsShallow | src/world-store.c:260-282 | What a copy leaves, however it ends, is within the depth that removal accepts |
| Worlds.Storage.RemoveFolder | src/world-store.c:260-282 | Nothing outside the folder changes, whatever links it holds; it is gone on success; depth is refused exactly when some folder is too deep, and nothing else is when the system refuses nothing |
| WorldImport.RemoveWorld | src/world-store.c:260-282 | A world is removed whole exactly when no folder in it is more than 128 levels down; nothing outside it changes |
| Worlds.Storage.Move | src/world-store.c:396-398 | The renamed tree is at the target and nowhere else |

## Left out

- TerrainDecoder.DecodeTerrain: the colour of a block name is a parameter, and the shading of the finished tile, which is floating-point, is not modelled.
- Lz4Stream.DecompressLz4: cancellation is not modelled, a frame is decoded into an array of its own that is then appended, and gzip and zlib streams are left to their libraries.
- NbtReader.Reader.Skip: the pointer pair is held as the slice of unread bytes, so pointer arithmetic past the end cannot be expressed.
- BridgeControl.Controller.SyncBridge: the bridge file store is an input (a name, whether it changed, or an error), and signal handlers that call back into the controller are not modelled.
- Lifecycle.Server.StartProcess: the configuration files written before a start, the process itself and the Windows and Android paths are inputs that succeed or fail; log handlers that start a server are not modelled.
- Sampler.Snapshotter.Snapshot: what an action does to a player, and the file that is written, are not modelled.
- CommandTracker.Tracker.PollReady: the tracker exists from the start instead of being made on first use.
- Players.PlayerStore.Ensure: platform, last address, first and last time seen and the table of live names are not modelled; log output that mentions players is taken as parsed.
- PlayerList.Reconcile: stops before a new state would replace one that an index still needs, since the code then works with freed memory; when a listed state has been merged away, that its address could be used again is not modelled.
- Players.SaveAndLoad: the escaping of the key file and the cast of play time to 64 bits are left to the library; the texts of the fields that are not modelled, and of all numbers, are a parameter, which counts only for a player under the reserved key. That nothing is written unless something changed (`player_state_dirty`, line 476) is not modelled.
- Players.PlayerStore.Forget: the table of live names, which lines 2662-2669 clear as well, is not modelled.
- Toml.ValueRead: floats and dates are not modelled; the reader knows bare and quoted keys, basic strings, decimal integers, booleans, arrays and inline tables, so a lockfile written by hand in another style (literal strings, dotted keys, comments inside values) is refused by the model.
- LockText.Output.AppendValue: prints no floats, dates and times, which the model's values do not include.
- PluginStore.PluginStore.Modify: a file's text is valid UTF-8 by its type, and the error texts are not modelled; a missing name or author is the empty string, as it is printed. A lockfile whose `plugins` is an inline table above any header is refused by the model, and that the file changed between loading and replacing it counts as one that cannot be replaced.
- PluginStore.PluginStore.FindFile: the parsing of the key file beside the plugin is an input.
- Ports.ApplyTwice: for a network that runs out of ports (not `Roomy`) only the sufficient condition is stated.
- Ports.ApplyAutoPorts: the members are looked up before the loop that assigns ports; lookups depend on no port. Ports of different protocols may collide, as in the source.
- Regions.World.ReadRegion: the file is its size, header, modification time and identity; links and other file types are turned away before.
- Worlds.Storage.Import: the listing of a folder does not fail, only the operations on its entries may; paths are physical (no folder on the way to them is a link), the source does not change meanwhile, and the random staging name is new.
- The TOML rewriter of the server configuration, the console formatting and the configuration getters and setters.
- Marketplace requests, release metadata, player heads, credential stores and the tray helper.
- The bridge file store (`src/minimap-store.c`) beyond its region scan, and the page that requests and evicts terrain (`src/window-minimap.c`) beyond its chunk lookup.
- Motion interpolation, tile caching, the status protocol's varints and the staged replacement of the server binary: smaller companions whose properties are local.
- Everything drawn or clicked: GTK, Cairo and the main loop.
