# touchfs and llmfs in Dafny

A model of the deterministic core of the touchfs repository, which ships two generations of the same system side by side: the older `llmfs` package and the newer `touchfs` package. Each is an in-memory FUSE filesystem. Its nodes live in a path-keyed dictionary, directories link their children by name, and file content is produced on demand by pluggable generators, most of them calls to a language model. The model covers everything around those calls:

- the node store and the filesystem operations on it;
- the generation trigger of `_get_size`, `open` and `read`;
- the token-budgeted context builders;
- the plugin registries and their first-match dispatch;
- the response cache with its statistics and control files;
- configuration and prompt/model resolution;
- the tree renderers and analysers, the generate command's list-to-tree conversion and the touch command's path checks.

Where the two packages share code that differs only in the reserved directory (`/.llmfs/` or `/.touchfs/`), the directory is a parameter.

The modules follow the program's structure:

- `Nodes`, `JsonFs`, `Models`: the node record, the `JSONFS` store with its lookups, and the pydantic models of a generated filesystem.
- `StoreOps`: create, mkdir, symlink, readlink, readdir, rename, unlink, rmdir, chmod and the extended-attribute operations, shared by every `Memory` class. The single-file `llmfs/llmfs.py` repeats `llmfs/core/jsonfs.py` and `llmfs/core/operations.py` apart from its OpenAI call, so these modules model it as well.
- `LegacyFs`: the single-class `Memory` of `llmfs/core/operations.py`. Its read, write, truncate, create and open operations and its recomputing `getattr`.
- `MemoryBase`, `Trigger`, `LlmfsMemory`, `TouchfsMemory`: the split memory filesystems of both packages. These cover the open-file table, the `_get_size` generation state machine, and the file operations with their byte and character arithmetic.
- `Plugins`, `Registry`, `Generator`: generator plugins, proc (overlay) files, the two registries, `generate_file_content` with its `.llmfs` filtering and cache keying.
- `CacheStats`, `Cache`, `CacheControl`: the hit/miss counters, the keyed response cache behind its switch, and the text protocol of the cache-control proc files.
- `Config`, `ConfigPlugins`, `Settings`: hierarchical YAML configuration with deep merge, the model/prompt/generation-model plugins' fallback chains, and the prompt and model settings of both packages.
- `ContextWalk`, `LlmfsContext`, `TouchfsContext`: the directory walk with exclude patterns, the all-or-nothing token budget, the sort keys and the rendered context text.
- `Outline`, `TreePlugin`, `LlmfsReadme`, `TouchfsReadme`, `SimpleTree`, `Executive`, `Image`: the tree renderers, the executive-summary statistics and cache key, and the image plugin's decisions.
- `GenerateCli`, `TouchPaths`: the generate command's `-F` check and flat-list-to-tree conversion, and the touch command's in-mount test and argument split.

Modules that state Python and library semantics once for all the others:

- `Wrappers` (`Option` and `Result`), `Values` (parsed JSON/YAML documents) and `Dicts` (insertion-ordered dictionaries).
- `Text` (`str` methods), `Numerals` (`str(n)` and `int(s)`) and `Utf8` (RFC 3629 encoding and strict decoding).
- `Bits` (`&` and `|` on Python integers and the `stat` constants), `Paths` (`posixpath`), `PurePath` (`pathlib.PurePosixPath`) and `Fnmatch` (`fnmatchcase` with `*` and `?`).
- `Sorting` (a stable `sorted` with tuple keys).

Python raises exceptions, some of them after a first mutation of the shared dictionaries. The model therefore returns the state as it stands after the call together with a `Result`. The model treats the following as parameters:

- the language model and image model;
- tiktoken's token counter;
- hashes, base64, and YAML/JSON parsing and dumping;
- the clock;
- `realpath`, `abspath` and `exists`;
- the environment and files read from the working directory.

Where the code and its documentation disagree, the model follows the code:

- `get_global_prompt` (touchfs/config/prompts.py:192-205) looks in the overlay mount before the working directory, although its docstring describes the opposite order. `Settings.OverlayShadowsCwdPrompt` states what the code does.
- The touchfs README tree (touchfs/content/plugins/readme.py) descends into every child that is not a file, symlinks included, not only into directories.
- The executive plugin's reserved-tree analysis (touchfs/content/plugins/executive.py:84) starts at "/", which its own filter excludes. It therefore always counts nothing (`Executive.ReservedFromRootIsEmpty`).
- The touchfs `truncate` of text content counts `length` in characters and records `length` as `st_size`, which differs from the UTF-8 size of non-ASCII text (`TouchfsMemory.TruncateTextCountsCharacters`).

## Model

| member | source | states |
|---|---|---|
| Models.ParseKind | llmfs/models/filesystem.py:13 | a node type validates exactly when it is one of the strings "file", "directory", "symlink", and the kind read back names that string |
| Models.KindNameParses | llmfs/models/filesystem.py:13 | every node kind's name validates back to that kind |
| Models.OptionalStr | llmfs/models/filesystem.py:8-9 | an optional string field is accepted exactly when it is absent, null or a string, and a string is kept as it is |
| Models.OptionalStrMap | llmfs/models/filesystem.py:15-17 | an optional string-to-string mapping is accepted exactly when it is absent, null or such a mapping, and the result is a well-formed dictionary |
| Models.ParseAttrs | llmfs/models/filesystem.py:5-9 | attributes validate only with an `st_mode` string, which the result carries |
| Models.ParseNode | llmfs/models/filesystem.py:11-17 | a node validates only with a `type` and `attrs`; its kind is the validated type; an absent content defaults to "" and a null content stays null |
| Models.ParseDumpAttrs | llmfs/models/filesystem.py:5-9 | validating dumped attributes gives the same attributes back |
| Models.ParseDumpNode | llmfs/models/filesystem.py:11-17 | validating a dumped node gives the same node back |
| Models.ParseFileSystem | llmfs/models/filesystem.py:19-21 | a filesystem validates only from a `data` mapping; its keys are that mapping's keys, and each entry is the validation of the same entry |
| Models.ParseGeneratedContent | llmfs/models/filesystem.py:23-25 | generated content validates exactly when `content` is a string, and the result is that string |
| JsonFs.Init | llmfs/core/jsonfs.py:27-36 | a fresh filesystem stores exactly one node, the root "/", a directory with empty children and empty attributes |
| JsonFs.Find | llmfs/core/jsonfs.py:38-52 | "" and "/" find the root (a `KeyError` when no root is stored); any other path finds the node under its normalised form, or nothing when that key is absent |
| JsonFs.FindCanonical | llmfs/core/jsonfs.py:47-52 | a normalised absolute path other than "/" is looked up as it is |
| JsonFs.StoredIsFound | llmfs/core/jsonfs.py:51-52 | a node put into the data map under a normalised path is found there at once |
| JsonFs.ChildNodes | llmfs/core/jsonfs.py:70-71 | listing succeeds exactly when every joined child path is stored, and gives one node per name, in order |
| JsonFs.FindAll | llmfs/core/jsonfs.py:54-72 | "/" lists the root; a pattern without a final star, or whose base is absent or not a directory, lists nothing; a non-empty listing has one node per child of the base |
| JsonFs.FindAllChildren | llmfs/core/jsonfs.py:66-71 | for a stored directory `/d`, `findall("/d/*")` lists the node of each child, in insertion order |
| JsonFs.EncoderDefault | llmfs/core/jsonfs.py:8-17 | the encoder's copy of a node drops `st_ctime`, `st_mtime`, `st_atime`, `st_nlink`, `st_size` and keeps every other attribute and every other entry |
| LegacyFs.DefaultModes | llmfs/core/operations.py:55-57 | the default root and `/fs.json` modes read back as 16877 and 33188 |
| LegacyFs.Seed | llmfs/core/operations.py:55-66 | before the JSON text is stored, the store holds the root with mode `S_IFDIR|0o755` and an empty `/fs.json` with mode `S_IFREG|0o644`, in that order |
| LegacyFs.Init | llmfs/core/operations.py:45-71 | a non-empty initial store is used as it is; an empty start stores the root, listing only `fs.json`, and `/fs.json` holding the serialised seed store; the descriptor counter starts at 0 |
| LegacyFs.InitListsFsJson | llmfs/core/operations.py:71 | after an empty start, listing "/" gives `.`, `..` and `fs.json` |
| LegacyFs.PlainSize | llmfs/core/operations.py:36-43 | a directory has size 0; a symlink its character count; a file its UTF-8 byte count; null content raises |
| LegacyFs.CollectInts | llmfs/core/operations.py:128-134 | exactly the stored attributes whose name starts with `st_` and whose value parses as an integer are kept |
| LegacyFs.Default | llmfs/core/operations.py:138-144 | a default is set only where no entry is present, and nothing else changes |
| LegacyFs.StatAt | llmfs/core/operations.py:127-149 | each reported attribute is the recomputed size for `st_size`, else a stored integer, else the current time for the three times, else the node-type link count for `st_nlink` |
| LegacyFs.Getattr | llmfs/core/operations.py:117-149 | a missing node raises ENOENT; otherwise the report is the stored integer attributes with defaults, and the size is recomputed |
| LegacyFs.GetattrOnlyStat | llmfs/core/operations.py:129-130 | every reported attribute name starts with `st_` |
| LegacyFs.Filled | llmfs/core/operations.py:189-201 | a generated text is stored with its UTF-8 size recorded; a failed generation stores empty text; nothing else changes |
| LegacyFs.SliceOf | llmfs/core/operations.py:203-204 | the bytes read are the UTF-8 encoding of the content slice from `offset` of `size` characters |
| LegacyFs.Read | llmfs/core/operations.py:181-205 | `/fs.json` reads a slice of the serialised store; a missing node reads as empty; a file without content is filled first; any other node reads its slice unchanged |
| LegacyFs.ReadAsWritten | llmfs/core/operations.py:194-197 | as written, the generator is handed the serialised text instead of the structure, so generation fails every time |
| LegacyFs.ReadAsWrittenBlanks | llmfs/core/operations.py:189-204 | as written, a file without content is blanked and reads as empty |
| LegacyFs.ReadGenerates | llmfs/core/operations.py:189-204 | with a working generator, the first read of a content-less file returns the generated text's slice and stores the text with its byte size |
| LegacyFs.ReadGeneratesOnce | llmfs/core/operations.py:189-190 | a second read leaves the store as the first read left it |
| LegacyFs.ReadText | llmfs/core/operations.py:203-204 | reading text content returns its encoded slice and changes nothing |
| LegacyFs.Spliced | llmfs/core/operations.py:312-315 | the stored text is the old text up to the offset (padded with spaces if shorter), followed by the data; the old tail is dropped |
| LegacyFs.WriteNode | llmfs/core/operations.py:310-317 | the data must decode as UTF-8 and the content be text; the node stores the spliced text with its UTF-8 byte size |
| LegacyFs.Write | llmfs/core/operations.py:305-324 | a missing node writes nothing and returns 0; otherwise the spliced node is stored and the data length returned; a failure changes nothing |
| LegacyFs.WriteAsWritten | llmfs/core/operations.py:310-319 | as written, the count returned is the decoded character count, with the same store |
| LegacyFs.WriteAsWrittenUndercounts | llmfs/core/operations.py:318-319 | as written, writing the two bytes of "é" reports one byte written; the corrected write reports two |
| LegacyFs.WriteRecordsSize | llmfs/core/operations.py:317 | the size a write records equals the size `getattr` recomputes for the new content |
| LegacyFs.SliceSpliced | llmfs/core/operations.py:315 | the spliced text holds the written data at the offset |
| LegacyFs.WriteThenRead | llmfs/core/operations.py:305-319 | after writing text at an offset, reading that many characters at that offset returns the text |
| LegacyFs.Truncate | llmfs/core/operations.py:276-281 | a missing node is left alone; otherwise the content is cut to `length` without padding and `length` recorded as the size; null content raises |
| LegacyFs.TakeBody | llmfs/core/operations.py:279-280 | text and bytes are both cut to their first `length` elements, absent content counting as "" |
| LegacyFs.TruncateKeepsPrefix | llmfs/core/operations.py:279-280 | after truncation the text is the old text's prefix of length `min(length, old length)` |
| LegacyFs.TruncateRecordsLength | llmfs/core/operations.py:281 | after truncation the recorded size reads back as `length` |
| LegacyFs.Create | llmfs/core/operations.py:96-115 | the store changes as the shared add-node operation says; success hands out the next descriptor, failure keeps the counter |
| LegacyFs.CreateThenGetattr | llmfs/core/operations.py:96-149 | a file created under an existing directory reports mode `S_IFREG|mode` and size 0 |
| LegacyFs.CreateUnderParent | llmfs/core/operations.py:96-115 | creating under an existing directory stores the new empty file at the child path |
| LegacyFs.StatStoredMode | llmfs/core/operations.py:129-147 | a parsable stored mode is reported unchanged next to the computed size |
| LegacyFs.Open | llmfs/core/operations.py:177-179 | `open` hands out the next descriptor and changes nothing else |
| StoreOps.SplitChild | llmfs/core/operations.py:76-80 | splitting a child path of a normalised directory gives back the directory and the name |
| StoreOps.NewFile | llmfs/core/operations.py:105-111 | `create` stores an empty file with mode `S_IFREG|mode` and no children or xattrs |
| StoreOps.NewDirectory | llmfs/core/operations.py:168-174 | `mkdir` stores a directory with empty children and mode `S_IFDIR|mode` |
| StoreOps.NewSymlink | llmfs/core/operations.py:267-273 | `symlink` stores a symlink whose content is the source path and whose mode is `S_IFLNK|0o777` |
| StoreOps.AddNode | llmfs/core/operations.py:96-112 | a parent that `find` cannot find raises ENOENT; on success the node is stored under the path as given and the parent maps the basename to it; no other entry changes |
| StoreOps.AddNodeUnderParent | llmfs/core/memory/dir_ops.py:17-35 | under an existing directory the node is stored at the child path, the parent lists it by name, and every other entry is unchanged |
| StoreOps.Chmod | llmfs/core/operations.py:82-88 | a missing node is ignored and 0 returned; otherwise only the node's attributes change, and a failure changes nothing |
| StoreOps.ChmodKeepsType | llmfs/core/operations.py:85-87 | after a permission-only `chmod` the mode's low twelve bits are the new mode and its file-type bits are the old ones |
| StoreOps.Chown | llmfs/core/operations.py:90-94 | owner and group are recorded as decimal strings; every other attribute and node is unchanged; a missing node is ignored |
| StoreOps.Getxattr | llmfs/core/operations.py:151-153 | an unset name reads as ""; a missing node raises `AttributeError` |
| StoreOps.Listxattr | llmfs/core/operations.py:155-157 | the listed names are exactly the node's xattr names, in the order they were first set (none for a node without an xattr map); a missing node raises `AttributeError` |
| StoreOps.SetXattrOf | llmfs/core/operations.py:252-255 | the xattr map is created when absent; `name` maps to the value and every other name is unchanged |
| StoreOps.Setxattr | llmfs/core/operations.py:250-255 | a missing node is ignored; otherwise only that node's xattrs change |
| StoreOps.SetxattrGetxattr | llmfs/core/operations.py:151-153 | `getxattr` after `setxattr` of a name gives the value back, and every other name reads as before |
| StoreOps.Removexattr | llmfs/core/operations.py:217-220 | the name is gone afterwards; other names, and a node without an xattr map, are unchanged |
| StoreOps.RemoveAbsentXattr | llmfs/core/operations.py:217-220 | removing an absent name changes nothing `getxattr` can see |
| StoreOps.Readdir | llmfs/core/operations.py:207-211 | a directory lists `.`, `..` and its child names in insertion order; anything else, or a missing node, lists only `.` and `..` |
| StoreOps.ReaddirAfterAdd | llmfs/core/operations.py:96-112 | after adding a child to an empty directory, the listing is `.`, `..` and the child's name |
| StoreOps.MkdirThenReaddir | llmfs/core/memory/dir_ops.py:17-46 | after `mkdir`, the new directory lists only `.` and `..` and its parent lists the new name |
| StoreOps.Readlink | llmfs/core/memory/link_ops.py:18-20 | `readlink` gives the stored content (absent content as ""), or "" for a missing node |
| StoreOps.SymlinkReadlink | llmfs/core/memory/link_ops.py:18-36 | `readlink` after `symlink(t, src)` under an existing directory gives `src` |
| StoreOps.UnlinkFrom | llmfs/core/operations.py:240-241 | popping a name from a missing parent raises `TypeError`; on success only the parent's children change |
| StoreOps.Delete | llmfs/core/operations.py:242 | deleting a stored key removes exactly that key; an absent key raises `KeyError` and changes nothing |
| StoreOps.Rmdir | llmfs/core/operations.py:232-248 | a missing node, a non-directory and a non-empty directory leave the store unchanged; an empty directory is unlinked from its parent and deleted; a directory with no children map raises `KeyError`, as a missing `children` key does (a `null` one is read the same way, see Left out) |
| StoreOps.RmdirEmpty | llmfs/core/memory/dir_ops.py:48-62 | removing an empty directory deletes its node and its parent's entry for it, and nothing else |
| StoreOps.Unlink | llmfs/core/operations.py:283-295 | only a key stored exactly as given is removed, after its name is popped from its parent; no other entry changes; a failure changes nothing |
| StoreOps.LinkAt | llmfs/core/operations.py:229-230 | linking into a missing parent raises `TypeError`; on success only the parent's children change |
| StoreOps.Rename | llmfs/core/operations.py:222-230 | only a stored key moves; the old key is gone; on success the new parent maps the new basename to the new path, which holds the node |
| StoreOps.Relink | llmfs/core/operations.py:225-230 | after the pop, the old name is unlinked, the node stored under the new path and linked in the new parent |
| StoreOps.RenameMoves | llmfs/core/operations.py:222-230 | renaming between existing directories moves the node; the old path and its listing are gone and the new parent lists the new name |
| MemoryBase.Normalised | llmfs/core/memory/base.py:29-32 | a file or symlink whose content is absent or null gets empty text; every other node, and every other part, is unchanged |
| MemoryBase.Init | llmfs/core/memory/base.py:18-38 | a non-empty initial store keeps its keys and has each node normalised, so no file or symlink lacks content; an empty start is the root alone with mode `S_IFDIR|0o755`; no descriptor is open |
| MemoryBase.NormalisedIdempotent | llmfs/core/memory/base.py:29-32 | normalising twice is normalising once |
| MemoryBase.InitNormalisedStore | llmfs/core/memory/base.py:27-32 | starting from a store in which no file or symlink lacks content keeps that store |
| MemoryBase.Record | llmfs/core/memory/file_ops.py:81-83 | the counter moves on by one; the new descriptor was not recorded before and now names the path |
| MemoryBase.Release | llmfs/core/memory/file_ops.py:144-149 | the descriptor is forgotten, every other record kept, and 0 returned |
| MemoryBase.RecordThenRelease | llmfs/core/memory/file_ops.py:144-148 | releasing the descriptor just recorded restores the open-file table |
| LlmfsMemory.GetSizeGenerated | llmfs/core/memory/base.py:97-156 | a due generation that yields non-empty text stores it and reports its UTF-8 size; the `generate_content` marker stays exactly when the path is under `/.llmfs/` |
| LlmfsMemory.GetSizeFailureRetries | llmfs/core/memory/base.py:157-165 | a generation that raises leaves the store as it was, marker included, and reports the size of the existing content |
| LlmfsMemory.Create | llmfs/core/memory/file_ops.py:21-40 | the store changes as the shared add-node operation says; success returns the next descriptor without recording an open file |
| LlmfsMemory.CreateRecordsNothing | llmfs/core/memory/file_ops.py:39-40 | the descriptor `create` returns names no open file |
| LlmfsMemory.OpenAt | llmfs/core/memory/file_ops.py:42-85 | `open` succeeds exactly on a found file (ENOENT otherwise, with nothing changed); success records the next descriptor for the path and changes no other node |
| LlmfsMemory.OpenKeepsContent | llmfs/core/memory/file_ops.py:46-49 | a file with content and no `generator` xattr is opened as it is, whatever the generator would answer |
| LlmfsMemory.OpenGenerates | llmfs/core/memory/file_ops.py:49-75 | opening a file that is empty or has a `generator` xattr stores the generated text with its UTF-8 size and leaves the xattrs alone |
| LlmfsMemory.OpenFailureBlanks | llmfs/core/memory/file_ops.py:77-79 | a generation that raises during `open` leaves the file with empty text |
| LlmfsMemory.OpenThenRelease | llmfs/core/memory/file_ops.py:144-148 | a successful `open` hands out a descriptor no record held, and releasing it restores the open-file table |
| LlmfsMemory.Read | llmfs/core/memory/file_ops.py:87-102 | through a recorded descriptor the recorded node is read; otherwise a missing node or non-file raises ENOENT, and an empty file is opened first; the result is the encoded content slice |
| LlmfsMemory.ReadAtMostSize | llmfs/core/memory/file_ops.py:100-102 | a read returns the encoding of at most `size` characters, taken from the offset on |
| LlmfsMemory.Target | llmfs/core/memory/file_ops.py:104-114 | without a recorded descriptor, a missing node or non-file is refused |
| LlmfsMemory.WriteTo | llmfs/core/memory/file_ops.py:116-135 | the node must be a file (ENOENT otherwise) and the data UTF-8; it then holds the spliced text with its UTF-8 size; the data's byte count is returned; a failure changes nothing |
| LlmfsMemory.Write | llmfs/core/memory/file_ops.py:104-135 | a target that cannot be found is reported with nothing changed; otherwise the target is written |
| LlmfsMemory.WriteAsWritten | llmfs/core/memory/file_ops.py:119-129 | as written, the count returned is the number of characters the data decodes to |
| LlmfsMemory.WriteAsWrittenUndercounts | llmfs/core/memory/file_ops.py:119-129 | as written, writing the two bytes of "é" reports 1; the corrected write reports 2 |
| LlmfsMemory.WriteThenRead | llmfs/core/memory/file_ops.py:87-129 | text written at an offset reads back from that offset |
| LlmfsMemory.WriteFilled | llmfs/core/memory/file_ops.py:113-127 | writing a file with content stores the spliced node under its path and returns the data length |
| LlmfsMemory.Truncate | llmfs/core/memory/file_ops.py:137-142 | truncation is the single-class filesystem's, with the descriptors untouched |
| LlmfsMemory.TruncateBeyondEnd | llmfs/core/memory/file_ops.py:140-142 | truncating beyond the end keeps the text as it is yet records the requested length as the size |
| Trigger.RecordedSize | touchfs/core/memory/base.py:118 | the recorded size is the parsed `st_size`, "0" when absent; a value that does not parse is an error |
| Trigger.Unmarked | touchfs/core/memory/base.py:172-180 | the `generate_content` marker is gone; every other xattr is unchanged; an xattr map the removal empties is dropped; an unmarked node is unchanged |
| Trigger.Filled | touchfs/core/memory/base.py:166-180 | the node takes the new content; off the reserved prefix its marker is dropped, under it the xattrs are unchanged; other parts are kept |
| Trigger.SizeOf | touchfs/core/memory/base.py:201-216 | a symlink reports its character count; a text file its UTF-8 byte count; binary content its byte count where the variant allows binary content and an error otherwise; null content raises |
| Trigger.ExistingSize | touchfs/core/memory/base.py:192-194 | after a failure the size is the existing text's UTF-8 size, or 0 when there is no content |
| Trigger.GetSize | touchfs/core/memory/base.py:100-216 | a directory reports 0 and changes nothing; an unmarked file with absent or null content gets empty text and reports 0; other unmarked nodes are measured as they are; a marked file goes through the generation branch; only nodes equal to the queried one can change |
| Trigger.Attempt | touchfs/core/memory/base.py:105-194 | the generation branch keeps the store's keys and changes only nodes equal to the queried one |
| Trigger.PathOf | touchfs/core/memory/base.py:111 | the path found for a node is a stored key holding an equal node |
| Trigger.SettledNotRegenerated | touchfs/core/memory/base.py:117-124 | a file with content and a non-zero recorded size, off the reserved prefix, is never regenerated: the store is unchanged and its size reported |
| Trigger.GenerationStores | touchfs/core/memory/base.py:166-184 | a due generation that yields content stores the filled node under the queried key and the node's path, reports its size, and keeps the marker exactly under the reserved prefix |
| Trigger.MarkerOnDueUnprefixed | touchfs/core/memory/base.py:119-122 | off the reserved prefix a due node carries the `generate_content` marker |
| Trigger.FailureKeepsNode | touchfs/core/memory/base.py:186-194 | a generation that raises changes nothing, so the marker stays for a retry; the existing content's size is reported |
| Trigger.EmptyResultKeepsNode | touchfs/core/memory/base.py:166 | an empty result from the generator leaves the store unchanged |
| Trigger.GeneratesOnce | llmfs/core/memory/base.py:106-151 | off the reserved prefix, after one successful generation, the next size query changes nothing and consults no generator |
| Trigger.UnmarkedFilled | touchfs/core/memory/base.py:196-216 | an unmarked file with content is measured as it is |
| TouchfsMemory.GetSize | touchfs/core/memory/base.py:100-216 | the size query keeps the store's keys and the descriptor table, and changes only nodes equal to the queried one |
| TouchfsMemory.PluginNeedsGeneratorKey | touchfs/core/memory/base.py:127-143 | the plugin registry is consulted only for a node with a `generator` xattr; without one the fallback generator decides |
| TouchfsMemory.GetSizeGenerated | touchfs/core/memory/base.py:166-184 | a due generation that yields content stores it under the node's path and reports its UTF-8 (or raw) byte size |
| TouchfsMemory.ConstantGenerationStores | touchfs/core/memory/base.py:166-184 | the same for the store alone, with a constant generator |
| TouchfsMemory.GetSizeMarker | touchfs/core/memory/base.py:172-180 | after a successful generation the `generate_content` marker is kept exactly when the path lies under `/.touchfs/` |
| TouchfsMemory.GetSizeFailureRetries | touchfs/core/memory/base.py:186-194 | a generation that raises leaves the store unchanged, marker included, and reports the existing content's size |
| TouchfsMemory.GetSizeSettled | touchfs/core/memory/base.py:117-124 | a file off the reserved prefix with content and a non-zero recorded size is not regenerated |
| TouchfsMemory.TouchedFile | touchfs/core/memory/file_ops.py:83-97 | the created file is empty, has size "0" and mode `S_IFREG | mode`, and carries the marker exactly when a touch created it |
| TouchfsMemory.TouchPath | touchfs/core/memory/file_ops.py:47-75 | without a touch directory the path stays; with one other than the root, ENOENT exactly when it is missing or not a directory; otherwise the file goes into it under the path's basename, normalised |
| TouchfsMemory.Create | touchfs/core/memory/file_ops.py:23-105 | a refused touch directory raises ENOENT and changes nothing; otherwise the file is created at the path the touch settled on |
| TouchfsMemory.TouchIntoDirectory | touchfs/core/memory/file_ops.py:57-71 | a touch working in a stored directory creates the file there under the given path's basename |
| TouchfsMemory.TouchIntoMissingDirectory | touchfs/core/memory/file_ops.py:63-68 | a touch working in a directory that is not stored raises ENOENT and changes nothing |
| TouchfsMemory.CreateAt | touchfs/core/memory/file_ops.py:77-105 | the node is added under the parent (ENOENT when the parent is missing or not a directory); on success the next descriptor is recorded for the path, on failure no descriptor is used |
| TouchfsMemory.CreateUnderDirectory | touchfs/core/memory/file_ops.py:77-105 | under an existing directory the file is stored, listed in the parent and opened under a fresh descriptor |
| TouchfsMemory.CreateAdded | touchfs/core/memory/file_ops.py:99-105 | once the node is stored, `create` returns fd+1 and records the path under it |
| TouchfsMemory.CreateNeedsDirectory | touchfs/core/memory/file_ops.py:78-81 | a parent that is not a directory raises ENOENT and nothing changes |
| TouchfsMemory.NeedsGenerationIsDue | touchfs/core/memory/file_ops.py:138-139 | off the reserved prefix, the test `open` makes equals the size query's trigger condition |
| TouchfsMemory.CreatedNeedsGeneration | touchfs/core/memory/file_ops.py:93-97 | a created file needs generation exactly when a touch created it |
| TouchfsMemory.Generated | touchfs/core/memory/file_ops.py:177-189 | after generation the content is the new one, the byte size is recorded, the marker is dropped, and every other attribute and xattr is kept |
| TouchfsMemory.Blanked | touchfs/core/memory/file_ops.py:195-198 | after a failed generation the content is empty text, the size "0" and the xattrs as they were |
| TouchfsMemory.OpenedSettles | touchfs/core/memory/file_ops.py:138-199 | a successful generation leaves a file that no longer needs one; a failed one leaves it still needing one |
| TouchfsMemory.Open | touchfs/core/memory/file_ops.py:129-131 | `open` keeps the store's keys and works on the node `find` reads for the path |
| TouchfsMemory.OpenAt | touchfs/core/memory/file_ops.py:130-205 | open succeeds exactly for an existing file and raises ENOENT otherwise; a failure changes nothing |
| TouchfsMemory.OpenFile | touchfs/core/memory/file_ops.py:138-203 | the file becomes `Opened`, no other node changes, and the path is recorded under fd+1 |
| TouchfsMemory.OpenCanonical | touchfs/core/memory/file_ops.py:130 | opening a normalised path reads the node stored under it |
| TouchfsMemory.OpenKeepsContent | touchfs/core/memory/file_ops.py:141-145 | a file that does not need generation opens without consulting the generator, and the store is unchanged |
| TouchfsMemory.OpenGenerates | touchfs/core/memory/file_ops.py:174-189 | a file that needs generation takes the generated content, its byte size is recorded and the marker is dropped |
| TouchfsMemory.OpenFailureBlanks | touchfs/core/memory/file_ops.py:192-199 | a generation that raises or returns nothing blanks the file and keeps the marker, so the next open tries again |
| TouchfsMemory.OpenThenRelease | touchfs/core/memory/file_ops.py:333-337 | open hands out a descriptor not in use; releasing it restores the open-file table |
| TouchfsMemory.Reopen | touchfs/core/memory/file_ops.py:217-218 | the node read after the internal `open` is the one that open stored under the path |
| TouchfsMemory.ReadBytes | touchfs/core/memory/file_ops.py:228-251 | absent content raises RuntimeError; otherwise at most `size` bytes of the encoded content come back |
| TouchfsMemory.ReadBytesRange | touchfs/core/memory/file_ops.py:239-248 | a read is empty from the end onward, and is otherwise `content[offset:min(offset+size, total)]` |
| TouchfsMemory.Read | touchfs/core/memory/file_ops.py:207-251 | at most `size` bytes; a held, settled descriptor reads its node without opening anything; open errors are passed through |
| TouchfsMemory.ReopenCanonical | touchfs/core/memory/file_ops.py:217-218 | opening a normalised file path yields the `Opened` node under a new descriptor |
| TouchfsMemory.ReadSettled | touchfs/core/memory/file_ops.py:214-251 | a read with no descriptor of a settled file opens it once, returns its bytes and leaves the store unchanged |
| TouchfsMemory.ReadRetriesAfterFailure | touchfs/core/memory/file_ops.py:220-226 | when the first generation fails and the retry in `read` succeeds, the read returns the new content and the file keeps it |
| TouchfsMemory.BytesSpliced | touchfs/core/memory/file_ops.py:273-278 | raw bytes are NUL-padded up to the offset and the data follows; the bytes before the offset are kept |
| TouchfsMemory.Written | touchfs/core/memory/file_ops.py:266-289 | raw bytes are spliced as bytes; otherwise the data must decode as UTF-8 (DecodeError otherwise) and is spliced into the text (TypeError for null content); the UTF-8 size is recorded and xattrs are kept |
| TouchfsMemory.WriteNode | touchfs/core/memory/file_ops.py:293-296 | a file still marked for generation is emptied to size "0" after the write; an unmarked file keeps what was written |
| TouchfsMemory.Settled | touchfs/core/memory/file_ops.py:294-296 | a marked file is blanked; an unmarked one is unchanged |
| TouchfsMemory.Target | touchfs/core/memory/file_ops.py:255-263 | the node to write is the descriptor's node, or the file found under the path, opened first when empty; ENOENT for a missing file or a non-file |
| TouchfsMemory.Write | touchfs/core/memory/file_ops.py:253-307 | returns `len(data)` on success; a target failure is returned with nothing changed |
| TouchfsMemory.WriteTo | touchfs/core/memory/file_ops.py:265-307 | a non-file raises ENOENT; a write succeeds exactly when `WriteNode` does, and a failed write changes nothing |
| TouchfsMemory.WriteFilled | touchfs/core/memory/file_ops.py:258-301 | writing with no descriptor to a file with content stores `WriteNode`'s node under the path |
| TouchfsMemory.WriteThenReadBytes | touchfs/core/memory/file_ops.py:239-278 | raw bytes written into an unmarked file of raw bytes read back as written |
| TouchfsMemory.SplicedReadsBack | touchfs/core/memory/file_ops.py:246-277 | the bytes spliced at an offset are the ones read back from there |
| TouchfsMemory.WriteMarkedDiscards | touchfs/core/memory/file_ops.py:294-301 | a write into a marked file reports every byte as written but leaves the file empty with size "0" |
| TouchfsMemory.Resized | touchfs/core/memory/file_ops.py:313-329 | raw bytes are cut or NUL-padded; text (absent counts as empty) is cut or space-padded; null content raises TypeError |
| TouchfsMemory.BytesResized | touchfs/core/memory/file_ops.py:314-321 | the result has exactly `length` bytes: a prefix, or the bytes followed by NULs |
| TouchfsMemory.TextResized | touchfs/core/memory/file_ops.py:323-329 | the result has exactly `length` characters: a prefix, or the text followed by spaces |
| TouchfsMemory.Truncate | touchfs/core/memory/file_ops.py:309-331 | a missing node is left alone; otherwise the node gets the resized content and records `length` as its size; a failure changes nothing |
| TouchfsMemory.TruncateBytesExact | touchfs/core/memory/file_ops.py:314-330 | for raw bytes the recorded size and the byte size are both `length` |
| TouchfsMemory.TruncateTextCountsCharacters | touchfs/core/memory/file_ops.py:323-330 | for text, `length` counts characters, so the recorded size can differ from the UTF-8 size |
| TouchfsMemory.NeedsGeneration | touchfs/core/memory/file_ops.py:138-139 | only a node marked `generate_content` is generated, and the test fails exactly when that node has content and a recorded size that does not parse as an integer |
| Executive.OverlayPath | touchfs/content/plugins/executive.py:22-26 | the plugin claims `executive` in its reserved directory, and not the same name elsewhere |
| Executive.IncludedPartition | touchfs/content/plugins/executive.py:81-85 | every path belongs to exactly one of the two analyses; a path in the reserved one lies strictly below the reserved directory, so the root never does |
| Executive.LastComponent | touchfs/content/plugins/executive.py:96-118 | the extension and the key-file test read the last component as pathlib parses it, ignoring case: a further component becomes what they read, a further "." component changes neither |
| Executive.GeneratorOf | touchfs/content/plugins/executive.py:102-112 | a file adds a generator name exactly when it is generated: its own `generator` xattr when it has one, otherwise `default:` and the pathlib name of the nearest prompt file when one is found, otherwise a name starting with `default` |
| Executive.RelPath | touchfs/content/plugins/executive.py:91 | a key file in the reserved tree is listed relative to the reserved directory (the intended cut, with `/` kept); other paths are listed as they are |
| Executive.TouchfsCutKeepsDirTail | touchfs/content/plugins/executive.py:91 | with `/.touchfs`, the fixed cut of seven characters lists `/.touchfs/readme.md` as `fs/readme.md`, while the intended cut gives `/readme.md` |
| Executive.LlmfsCutAgrees | llmfs/content/plugins/executive.py:90 | with `/.llmfs`, the fixed cut and the intended cut agree on every path |
| Executive.Visit | touchfs/content/plugins/executive.py:87-132 | the walk reaches the start node first when it is included, reaches only stored, included paths, skips an excluded subtree, and raises KeyError for a missing path |
| Executive.VisitAll | touchfs/content/plugins/executive.py:126-129 | the children's subtrees in order; a child missing from the store makes the walk fail |
| Executive.Bump | touchfs/content/plugins/executive.py:98-99 | the extension's count goes up by one and every other count is unchanged |
| Executive.TallyCounts | touchfs/content/plugins/executive.py:93-124 | the file, directory, symlink and generated counters are the node-by-node counts |
| Executive.TallyTypes | touchfs/content/plugins/executive.py:96-99 | each non-empty extension's count is the number of files with it |
| Executive.TallyGenerators | touchfs/content/plugins/executive.py:101-112 | the generators collected are exactly those of the files counted |
| Executive.TallyKeyFiles | touchfs/content/plugins/executive.py:114-118 | key files are listed in the order the walk meets them |
| Executive.Analyze | touchfs/content/plugins/executive.py:69-139 | the analysis succeeds exactly when the walk does, and its key files come out sorted |
| Executive.AnalyzeCounts | touchfs/content/plugins/executive.py:87-132 | every counter, and each extension's count, is the number of reached nodes it applies to |
| Executive.AnalyzeNames | touchfs/content/plugins/executive.py:101-137 | the generators are those of the reached files, and the key files are a sorted permutation of the reached key files |
| Executive.MainSkipsReserved | touchfs/content/plugins/executive.py:81-122 | the main analysis reaches nothing below the reserved directory and does not count the directory itself |
| Executive.ReservedFromRootIsEmpty | touchfs/content/plugins/executive.py:84 | the reserved-tree analysis starts at "/", which is excluded, so it counts nothing |
| Executive.CountKeyOrder | touchfs/content/plugins/executive.py:156 | the sort key orders by count, largest first |
| Executive.TopTypes | touchfs/content/plugins/executive.py:156-158 | at most five types, all from the dict, largest counts first, and no type left out outranks one listed |
| Executive.TypeLines | touchfs/content/plugins/executive.py:157-158 | one `ext: count` line per listed type, in order |
| Executive.Header | touchfs/content/plugins/executive.py:146-151 | four count lines, plus a fifth exactly when some file is generated |
| Executive.Layout | touchfs/content/plugins/executive.py:153-170 | the file-types section follows the header exactly when some type is listed, and lists the top types in order |
| Executive.InfoLinesHeader | touchfs/content/plugins/executive.py:146-151 | the block opens with the three counts, and the generated-files line follows exactly when the count is positive |
| Executive.InfoLinesTypes | touchfs/content/plugins/executive.py:153-158 | the file-types section is there exactly when some type was counted, with at most five counts, largest first |
| Executive.EmptyInfoLines | touchfs/content/plugins/executive.py:141-172 | with nothing counted the block is the four statistics lines |
| Executive.InfoBlockOpening | touchfs/content/plugins/executive.py:141-172 | the block's text starts with the title and the three count lines joined by newlines, and is exactly that when nothing else was counted |
| Executive.Signature | touchfs/content/plugins/executive.py:30-60 | a signature is `None` exactly for an excluded node, and a missing path raises KeyError |
| Executive.SignatureAll | touchfs/content/plugins/executive.py:51-56 | only the children's non-`None` signatures are kept, so there are at most as many as children |
| Executive.CacheKey | touchfs/content/plugins/executive.py:228-232 | the key is the digest of the main signature, a colon, then the digest of the reserved signature; it fails exactly when a signature does |
| Executive.ReservedHalfConstant | touchfs/content/plugins/executive.py:32-33 | the reserved half of the key is the digest of `None`, whatever the reserved tree holds |
| Executive.ThroughJson | touchfs/content/plugins/executive.py:234-244 | after the JSON round trip the statistics are unchanged except for the order of the file-type entries, which stays a permutation |
| Executive.Generate | touchfs/content/plugins/executive.py:251-263 | generation succeeds exactly when the cache key and both analyses do; a store without "/" raises KeyError |
| Executive.ReservedSummaryIsEmpty | touchfs/content/plugins/executive.py:240-258 | the reserved summary is always asked for from the block of an empty analysis |
| Executive.InfoBlock | touchfs/content/plugins/executive.py:141-172 | the statistics block handed to the summary; its opening lines are stated by `Executive.InfoBlockOpening` |
| Executive.ExtOf | touchfs/content/plugins/executive.py:97 | `Path(p).suffix.lower()`; what it reads is stated by `Executive.LastComponent` |
| Executive.IsKeyFile | touchfs/content/plugins/executive.py:115-118 | whether the lower-cased `Path(p).name` is one of the eight key file names; stated by `Executive.LastComponent` |
| Executive.Included | touchfs/content/plugins/executive.py:81-85 | `should_include`: inside or outside the reserved directory, as the analysis asks; the partition is stated by `Executive.IncludedPartition` |
| Image.Plugin | touchfs/content/plugins/image.py:33-43 | the plugin is named `image`, has no overlay files, and claims a path exactly when its lower-cased extension is `.jpg`, `.jpeg` or `.png` |
| Image.FileRoot | touchfs/content/plugins/image.py:65 | the file root followed by the extension gives back the base name |
| Image.Describe | touchfs/content/plugins/image.py:67 | the description has the root's length; underscores and dashes become spaces and every other character is kept |
| Image.NearestPrompt | touchfs/content/plugins/image.py:58-62 | a nearest prompt file with content gives its stripped text; nothing is given otherwise |
| Image.PromptDescription | touchfs/content/plugins/image.py:55-73 | a nearest prompt wins; otherwise a name containing "cat" gives the fixed cat sentence, and any other name is wrapped in the safe phrasing |
| Image.BasePrompt | touchfs/content/plugins/image.py:145-154 | the description `generate` sends is the nearest prompt's text, else the file-name description (with no "cat" rule) |
| Image.HashedPaths | touchfs/content/plugins/image.py:120-130 | the hashed paths are exactly the other files with content, in strictly ascending order |
| Image.HashInput | touchfs/content/plugins/image.py:118-132 | the hash covers one (path, content) pair per hashed path, in order |
| Image.HashIgnoresTargetAndOrder | touchfs/content/plugins/image.py:120-132 | two stores that agree on the other files' content hash the same, whatever the target holds |
| Image.Pad | touchfs/content/plugins/image.py:259-262 | the padded text keeps the data, adds fewer than four `=`, and has a length divisible by four |
| Image.PadIdempotent | touchfs/content/plugins/image.py:259-262 | padding leaves padded data alone, so it is idempotent |
| Image.Mime | touchfs/content/plugins/image.py:252-257 | a MIME type exists exactly for the supported extensions: `image/png`, and `image/jpeg` for both JPEG spellings |
| Image.Generate | touchfs/content/plugins/image.py:93-286 | existing content is returned as it is; without a client nothing is produced; a result is raw bytes; what is cached is keyed by the path and the filesystem hash; the recorded final prompt is the summary of the base prompt |
| Image.Decode | touchfs/content/plugins/image.py:236-282 | an image comes back exactly when the answer is non-empty, the extension has a MIME type and the padded text decodes; it is cached exactly when caching is on |
| Image.CacheHitSkipsModels | touchfs/content/plugins/image.py:134-142 | with caching on, a non-empty cache entry for the path and hash is returned without calling either model |
| Registry.Register | llmfs/content/plugins/registry.py:22-32 | the generator is filed under its name and every other name keeps its generator; a new name goes last and a known one keeps its place |
| Registry.FirstMatch | llmfs/content/plugins/registry.py:44-47 | the first position whose generator claims the file, with none before it claiming it; nothing exactly when no generator claims it |
| Registry.GetGenerator | llmfs/content/plugins/registry.py:34-47 | the answer is the first registered generator, in registration order, that claims the path and node; nothing exactly when none does |
| Registry.RegisterAllValues | touchfs/content/plugins/registry.py:49-53 | registering well-formed plugins keeps every registered plugin well-formed |
| Registry.RegisterAllKeys | touchfs/content/plugins/registry.py:49-53 | registering generators with new, distinct names appends the names in order |
| Registry.RegisterAllGet | touchfs/content/plugins/registry.py:49-53 | generators with distinct names are each filed under their own name |
| Registry.RegisterAllKeeps | touchfs/content/plugins/registry.py:88-103 | a name no later generator takes keeps its generator |
| Registry.Instance | llmfs/content/plugins/registry.py:11-20 | the first call creates and stores the instance; later calls return the stored one and change nothing |
| Registry.SameInstance | llmfs/content/plugins/registry.py:14-20 | calling the constructor again after the first call returns the same registry |
| Registry.FreshInstance | llmfs/content/plugins/registry.py:17-19 | a fresh instance holds the readme generator, then the default one |
| Registry.NewDirectory | touchfs/content/plugins/registry.py:119-124 | a created directory has no content, an empty children map, mode "16877" (0o755) and no xattrs |
| Registry.ProcToNode | touchfs/content/plugins/registry.py:17-24 | the node takes the proc file's type, content, attributes and xattrs, with no children entry |
| Registry.LinkIn | touchfs/content/plugins/registry.py:127-131 | linking succeeds exactly when the parent exists with a children map; the entry is added, and every other node is kept |
| Registry.AddDirectory | touchfs/content/plugins/registry.py:119-127 | a missing directory is added as a created directory, and every existing node is kept but for new entries |
| Registry.EnsureDirsEffects | touchfs/content/plugins/registry.py:113-127 | after the ancestor loop every directory of the chain exists, existing nodes are kept but for new entries, and every new node is a created directory of the chain |
| Registry.AncestorsEffects | touchfs/content/plugins/registry.py:110-127 | the ancestor loop adds only created directories and keeps every node but for new entries |
| Registry.PlaceEffects | touchfs/content/plugins/registry.py:129-131 | the proc file's node is stored under its path and listed under its base name in its directory |
| Registry.InstallFileEffects | touchfs/content/plugins/registry.py:108-131 | an installed proc file exists and is listed in its directory; existing nodes are kept but for new entries; every other new node is a created directory |
| Registry.RegisterTouch | touchfs/content/plugins/registry.py:88-131 | registering files the generator under its name; with no filesystem nothing else happens |
| Registry.RegisterTouchAll | touchfs/content/plugins/registry.py:49-53 | registering a list gives the same generator map as registering each in turn |
| Registry.InstallPlugins | touchfs/content/plugins/registry.py:59-86 | installing every proc file in registration order leaves a well-formed store |
| Registry.Init | touchfs/content/plugins/registry.py:29-57 | the nine built-ins are registered in order; with no filesystem construction always succeeds |
| Registry.InitOrder | touchfs/content/plugins/registry.py:36-53 | with distinct names, lookups run in the fixed order readme, default, tree, prompt, model, log symlink, cache control, image, touch detector |
| Plugins.NewOverlayFile | llmfs/content/plugins/base.py:7-17 | an overlay file is a regular file with mode 0o644, empty content and size "0"; a missing xattr map becomes an empty one |
| Plugins.GeneratorTag | touchfs/content/plugins/proc.py:27 | the xattr map holds exactly `generator` set to the plugin's name |
| Plugins.NameOf | llmfs/content/plugins/registry.py:28-31 | a generator is filed under `generator_name()` when it has one, else under its lower-cased class name |
| Plugins.ProcFilesAt | touchfs/content/plugins/multiproc.py:24-30 | one overlay file per listed path, in order, each tagged with the plugin's name |
| Plugins.ProcFiles | touchfs/content/plugins/proc.py:24-28 | a proc plugin provides the single file in its reserved directory, tagged with its name; a plugin with the default matcher provides none |
| Plugins.DefaultCanHandleIff | llmfs/content/plugins/base.py:62-64 | the base class claims a node exactly when its `generator` xattr is the plugin's name; a node without xattrs is never claimed |
| Plugins.AnyProcPathIff | touchfs/content/plugins/multiproc.py:32-40 | a multi-proc plugin claims a path exactly when it is one of its overlay paths |
| Plugins.ProcCanHandleIff | touchfs/content/plugins/proc.py:30-36 | a proc plugin claims a path exactly when it is one of its own overlay files' paths, whatever the node |
| Plugins.OwnFilesHandled | touchfs/content/plugins/proc.py:24-36 | every overlay file of a proc plugin is claimed by it and tagged with its name |
| Plugins.ProcStaysInDir | llmfs/content/plugins/proc.py:30-36 | a proc plugin never claims a path outside its reserved directory |
| Plugins.GenerationModelPath | llmfs/content/plugins/generation.py:14-19 | the model plugin claims `/.llmfs/generation.model`, and not the same name nested or bare |
| Plugins.CanHandle | llmfs/content/plugins/base.py:62-64 | which files a plugin claims; stated per kind by `Plugins.DefaultCanHandleIff`, `ProcCanHandleIff` and `AnyProcPathIff` |
| CacheStats.IncrementHits | llmfs/core/cache_stats.py:7-10 | the hit counter goes up by one and the miss counter is unchanged |
| CacheStats.IncrementMisses | llmfs/core/cache_stats.py:12-15 | the miss counter goes up by one and the hit counter is unchanged |
| CacheStats.Reset | llmfs/core/cache_stats.py:24-27 | both counters are zero afterwards |
| CacheStats.Get | llmfs/core/cache_stats.py:17-22 | the pair reports the hit counter and then the miss counter |
| CacheStats.ReplayCounts | llmfs/core/cache_stats.py:7-15 | after any run of lookups, the hits added are the hit events and the misses added are the miss events |
| CacheStats.ReplayTotal | llmfs/core/cache_stats.py:7-15 | from a fresh start, hits plus misses equals the number of lookups |
| Cache.CacheDir | llmfs/core/cache.py:14-25 | the variable's value when it is set and non-empty, otherwise `.llmfs.cache` under the home directory |
| Cache.DefaultCacheDir | llmfs/core/cache.py:22-25 | with the variable unset or empty, the directory is `<home>/.llmfs.cache` |
| Cache.NameParts | llmfs/core/cache.py:36-49 | the first 8 digits of the digest, and the encoding cut or padded with '-' to exactly 40 characters |
| Cache.KeyShape | llmfs/core/cache.py:38-70 | every cache file name is 8 digits, '_', 40 characters and ".json" |
| Cache.KeyIgnoresKeyOrder | llmfs/core/cache.py:37-42 | with sorted keys, the file name does not depend on the order the request's keys were inserted |
| Cache.Present | llmfs/core/cache.py:81 | JSON null reads as `None`; any other value comes back as it is |
| Cache.Answer | llmfs/core/cache.py:81 | a mapping answers its "response" field (nothing when absent); any other document answers itself |
| Cache.Lookup | llmfs/core/cache.py:51-85 | a disabled cache, a missing directory or file, and an unreadable file are all misses with no answer; a readable file is a hit; only the counters change |
| Cache.LookupCountsOnce | llmfs/core/cache.py:51-85 | every lookup bumps exactly one counter by one, and an answer always means a hit |
| Cache.DisabledMisses | llmfs/core/cache.py:60-62 | a disabled cache answers nothing and counts a miss |
| Cache.Entry | llmfs/core/cache.py:104-107 | the document written is a mapping whose "request" and "response" fields are the request and the response |
| Cache.Store | llmfs/core/cache.py:87-114 | storing keeps the enabled flag and the counters |
| Cache.DisabledStoreNoOp | llmfs/core/cache.py:94-95 | storing on a disabled cache changes nothing |
| Cache.StoreThenLookup | llmfs/core/cache.py:87-114 | with caching on, a stored response is found again as a hit (None for JSON null) |
| Cache.StoreKeepsOthers | llmfs/core/cache.py:100-111 | storing one file leaves the answers for every other file as they were |
| Cache.Get | llmfs/core/cache.py:51-85 | a lookup of a request reads the file its key names |
| Cache.Put | llmfs/core/cache.py:87-114 | storing a request's response keeps the cache state well-formed |
| Cache.PutThenGet | llmfs/core/cache.py:27-114 | a response cached for a request is returned for that request and for any request that serialises the same way |
| Cache.KeyOf | llmfs/core/cache.py:38-70 | a cache file name is at most 8 leading digits of the request's digest, '_', 40 characters of its encoding, and ".json" |
| CacheControl.ControlFiles | llmfs/content/plugins/cache_control.py:25-30 | the plugin provides exactly the four control files, in order, and claims exactly those paths |
| CacheControl.JsonNames | llmfs/content/plugins/cache_control.py:37 | the names kept are exactly the directory's names ending in ".json" |
| CacheControl.CacheSize | llmfs/content/plugins/cache_control.py:32-39 | the size is the total of the JSON files' sizes, 0 when the directory is absent |
| CacheControl.EmptyCacheHasNoSize | llmfs/content/plugins/cache_control.py:34-39 | with no JSON file the size is 0 |
| CacheControl.ClearCache | llmfs/content/plugins/cache_control.py:41-50 | every JSON file of an existing directory is deleted; other files, the switch and the counters stay |
| CacheControl.ClearLeavesNoJson | llmfs/content/plugins/cache_control.py:41-50 | after clearing no JSON file is left |
| CacheControl.SortedFiles | llmfs/content/plugins/cache_control.py:57 | the listing visits a sorted permutation of the JSON files |
| CacheControl.ListLines | llmfs/content/plugins/cache_control.py:56-60 | one `stem (size bytes)` line per JSON file, in sorted order |
| CacheControl.ListLineOfKey | llmfs/content/plugins/cache_control.py:57-59 | a cache file `<key>.json` is listed as its key and its size in bytes |
| CacheControl.ListCache | llmfs/content/plugins/cache_control.py:52-61 | "Cache empty" and a newline when there is no file; otherwise the lines joined by newlines with a final newline |
| CacheControl.StatsReadBack | llmfs/content/plugins/cache_control.py:84-92 | `cache_stats` splits into the hit count, the miss count, the size in bytes and the switch as `True`/`False` |
| CacheControl.EnabledFile | llmfs/content/plugins/cache_control.py:68-82 | stripped "1" turns caching on and "0" turns it off; anything else keeps it; the answer is "1\n" exactly when caching is on afterwards |
| CacheControl.ClearFile | llmfs/content/plugins/cache_control.py:94-97 | stripped "1" clears the cache, anything else keeps it; the answer is fixed |
| CacheControl.Generate | llmfs/content/plugins/cache_control.py:63-102 | no control file moves the counters |
| CacheControl.StripReservedDir | llmfs/content/plugins/cache_control.py:66 | removing "/.llmfs/" from a control file's path gives back its name |
| CacheControl.Dispatch | llmfs/content/plugins/cache_control.py:66-102 | each control file answers through its own handler; any other name answers "" and changes nothing |
| CacheControl.ClearThenList | llmfs/content/plugins/cache_control.py:52-100 | writing "1" to `cache_clear` and then reading `cache_list` shows an empty cache of size 0 |
| CacheControl.StatsText | llmfs/content/plugins/cache_control.py:84-92 | the text of `cache_stats`; it reads back as `CacheControl.StatsReadBack` states |
| CacheControl.ListLine | llmfs/content/plugins/cache_control.py:57-59 | one line of `cache_list`; stated by `CacheControl.ListLineOfKey` |
| Generator.OpenKeys | llmfs/content/generator.py:194-196 | the kept keys are exactly the unreserved ones, in order, and stay distinct |
| Generator.OpenNames | llmfs/content/generator.py:200-202 | the kept names are exactly those whose target is unreserved, in order |
| Generator.FilterChildren | llmfs/content/generator.py:198-203 | a child entry is kept exactly when its target path is unreserved |
| Generator.FilterNode | llmfs/content/generator.py:197-203 | only the children change, and they are filtered |
| Generator.FilterStore | llmfs/content/generator.py:191-203 | a path is kept exactly when it is unreserved, and each kept node is filtered |
| Generator.FilterHidesReserved | llmfs/content/generator.py:191-203 | the filtered structure has no reserved path and no link to one |
| Generator.FilterKeepsOpen | llmfs/content/generator.py:194-203 | every unreserved path stays with its type, content, attributes and xattrs, and every link to an unreserved path stays |
| Generator.FilterIdempotent | llmfs/content/generator.py:191-203 | filtering twice is filtering once |
| Generator.Visible | llmfs/content/generator.py:190-206 | a generator for an ordinary file sees the filtered structure; one for a reserved file sees everything |
| Generator.Request | llmfs/content/generator.py:262-268 | the cache request is a mapping built from the content type, the path, the model, the prompt and the node's type |
| Generator.RequestIgnoresContent | llmfs/content/generator.py:262-268 | two nodes of the same type give the same cache request |
| Generator.Produce | llmfs/content/generator.py:248-305 | without the cache, the answer is the generator's (or GenerationFailed) and the cache is untouched; any failure is GenerationFailed |
| Generator.Dispatch | llmfs/content/generator.py:242-246 | the call fails with NoGenerator exactly when no registered generator claims the file, and then changes nothing |
| Generator.GenerateFileContent | llmfs/content/generator.py:157-305 | no registry fails first; a missing node or one without `st_mode` fails the conversion; otherwise the node as filtered goes to the dispatch |
| Generator.GeneratorsSeeFiltered | llmfs/content/generator.py:190-206 | an ordinary file's generator sees no reserved path; a reserved file's sees the whole structure |
| Generator.ProcFilesBypassCache | llmfs/content/generator.py:249-281 | files under `/.llmfs/` never touch the cache or its counters |
| Generator.DisabledAlwaysGenerates | llmfs/content/generator.py:253-281 | with caching off every call generates and no counter moves |
| Generator.HitSkipsGeneration | llmfs/content/generator.py:269-274 | a non-empty cached answer is returned as it is, without consulting the generator, and counts a hit |
| Generator.MissStores | llmfs/content/generator.py:276-300 | after a miss, a successful generation is stored under the request |
| Generator.GeneratedThenHit | llmfs/content/generator.py:269-300 | after an answer is generated and stored, the next call for the same request is a hit with that answer |
| Generator.FilterGenerated | llmfs/content/generator.py:129-141 | a generated structure loses its reserved tree unless the prompt is empty or starts with "internal:" |
| Config.Plugin | llmfs/content/plugins/config.py:16-24 | the plugin is named `config`, has no overlay files, and claims a path exactly when it ends in `/.llmfs/config.yaml` or is `/config/config.yaml` |
| Config.CanHandleExamples | llmfs/content/plugins/config.py:19-24 | config files at any depth are claimed; other YAML files and a bare `/config.yaml` are not |
| Config.CheckSections | llmfs/content/plugins/config.py:36-40 | the check passes exactly when every present section is a mapping |
| Config.Validate | llmfs/content/plugins/config.py:26-52 | a configuration is valid exactly when it is a mapping, its `generation`, `logging` and `plugins` sections are mappings where present, and a present `generation.model` is a string |
| Config.ValidateExamples | llmfs/content/plugins/config.py:26-52 | the empty mapping and a string model pass; null, a list, a string, a non-mapping section and a numeric model fail |
| Config.LoadYaml | llmfs/content/plugins/config.py:54-69 | empty text loads as the empty mapping; otherwise the result is the parsed mapping, and nothing when the text does not parse or is not a mapping |
| Config.Deep | llmfs/content/plugins/config.py:107-110 | a mapping under a mapping is merged into it; anything else replaces the parent's value |
| Config.MergeKeysKeys | llmfs/content/plugins/config.py:105-111 | the loop keeps the mapping well-formed and appends the child's new keys in order |
| Config.MergeKeysGet | llmfs/content/plugins/config.py:106-110 | keys the loop does not visit keep their value; each visited key gets its combined value |
| Config.Merge | llmfs/content/plugins/config.py:101-111 | the child wins on every key it has, except that a mapping over a mapping is merged; keys only the parent has keep their values; new keys follow the parent's in the child's order |
| Config.DeepMaps | llmfs/content/plugins/config.py:107-108 | two mappings under one key are merged by `_merge_configs` itself |
| Config.MergeIntoEmpty | llmfs/content/plugins/config.py:101-111 | merging into the empty configuration gives the child unchanged |
| Config.MergeSelf | llmfs/content/plugins/config.py:101-111 | merging a configuration into itself changes nothing, at every depth |
| Config.Layer | llmfs/content/plugins/config.py:91-97 | one step of the walk keeps the accumulated configuration well-formed |
| Config.WalkSnoc | llmfs/content/plugins/config.py:90-97 | walking one more directory is one more layer on the walk so far |
| Config.WalkSkipUnused | llmfs/content/plugins/config.py:92 | the skipped file matters only when some directory of the walk has it as its config file |
| Config.Chain | llmfs/content/plugins/config.py:80-90 | the directories run from "/" down to the start directory, each the parent of the next |
| Config.ConfigAtParts | llmfs/content/plugins/config.py:91 | a directory's config file is a normalised path two levels below it, and is the root config file only for "/" |
| Config.ConfigAtChild | llmfs/content/plugins/config.py:91 | the config file is `config.yaml` under `.llmfs` under the directory |
| Config.ChainMissesBelow | llmfs/content/plugins/config.py:92 | no directory on the walk has the file being generated as its config file, so none is skipped |
| Config.ParentConfig | llmfs/content/plugins/config.py:71-99 | the root config file inherits the empty configuration, and the result is always a well-formed mapping |
| Config.ParentIsEffectiveAbove | llmfs/content/plugins/config.py:71-99 | a config file inherits the configuration in effect in the directory above the one holding it; at the root it inherits nothing |
| Config.EffectiveStep | llmfs/content/plugins/config.py:88-97 | deeper directories take precedence: a directory's configuration is the one above it with its own file merged over it |
| Config.GenerateKeepsParent | llmfs/content/plugins/config.py:118-132 | reading, or writing something that does not load to a non-empty valid mapping, yields the inherited configuration |
| Config.WrittenSettingsWin | llmfs/content/plugins/config.py:120-129 | writing a valid configuration keeps every inherited key; each written non-mapping setting takes the written value, and unwritten keys keep the inherited one |
| Config.CanHandle | llmfs/content/plugins/config.py:19-24 | the paths the config plugin claims; the registered plugin is bound to it by `Config.Plugin`, and `Config.CanHandleExamples` shows it |
| ConfigPlugins.ProcPaths | touchfs/content/plugins/model.py:18-23 | each configuration plugin claims exactly its one overlay file (`model.default`, `prompt.default`, `generation.model`) in its reserved directory |
| ConfigPlugins.ValidateField | llmfs/content/plugins/model.py:12-37 | a JSON object gives its string field, or the default when the field is absent; a non-string field, another document, or text that is not JSON fails validation |
| ConfigPlugins.ParseSetting | llmfs/content/plugins/model.py:36-42 | a validated setting, or else the stripped raw text |
| ConfigPlugins.TouchfsParseModel | touchfs/content/plugins/model.py:43-49 | the whitespace guard never raises, so the touchfs parse always yields the setting |
| ConfigPlugins.PickSource | llmfs/content/plugins/model.py:31-59 | the nearest file is used exactly when it was found, is not the file itself and has content; then the file's own content, if any; else the fallback |
| ConfigPlugins.Resolve | llmfs/content/plugins/model.py:31-56 | the setting comes from the nearest usable file, else from the node's own content; nothing exactly when neither is available |
| ConfigPlugins.ResolveIgnoresSelf | llmfs/content/plugins/model.py:33 | a search that answers with the file being generated acts as if nothing had been found |
| ConfigPlugins.TouchfsModelGenerate | touchfs/content/plugins/model.py:25-85 | the touchfs plugin returns the resolved model and sets it, or returns the current model and sets nothing; there is no trailing newline |
| ConfigPlugins.LlmfsGenerate | llmfs/content/plugins/prompt.py:25-60 | the resolved setting, or the fallback, followed by a newline; the setter is called exactly for a resolved setting |
| ConfigPlugins.LlmfsModelGenerate | llmfs/content/plugins/model.py:25-61 | the answer ends in a newline; the model is set exactly when it comes from a file; otherwise the current model is returned |
| ConfigPlugins.LlmfsPromptGenerate | llmfs/content/plugins/prompt.py:25-60 | the answer ends in a newline; the prompt is set exactly when it comes from a file; otherwise the global prompt is returned |
| ConfigPlugins.ModelPluginsAgree | touchfs/content/plugins/model.py:25-85 | both packages' model plugins resolve the same model; the llmfs one only adds a newline |
| ConfigPlugins.RawContentStripped | llmfs/content/plugins/model.py:52-53 | raw content that is not JSON is used stripped |
| ConfigPlugins.GenerationGenerate | llmfs/content/plugins/generation.py:21-27 | empty content yields the default model; otherwise the content must validate (ValidationError otherwise) and gives its model |
| ConfigPlugins.GenerationCases | llmfs/content/plugins/generation.py:8-27 | a JSON object naming a model yields it; one with no model yields the default; text that is not JSON is rejected |
| Settings.Lift | touchfs/config/prompts.py:185-190 | an optional string is accepted exactly when it is present and non-empty, and then gives itself |
| Settings.FirstHitEarliest | touchfs/config/prompts.py:184-205 | a chain of `if x := candidate: return x` returns the earliest accepted candidate, whatever follows it |
| Settings.FirstHitFallback | touchfs/config/prompts.py:207-212 | with no accepted candidate the chain returns the fallback |
| Settings.FirstHitSource | touchfs/config/prompts.py:184-212 | the chain's answer is an accepted candidate or the fallback |
| Settings.ReadSettingFile | touchfs/config/prompts.py:25-48 | a missing or unreadable file gives nothing; stripped text that is not JSON is itself the setting; a JSON mapping holding the field gives that value; any other JSON document gives nothing |
| Settings.ReadPromptFile | touchfs/config/prompts.py:50-66 | the stripped file text, or ValueError exactly when the file cannot be read |
| Settings.InitialPromptState | touchfs/config/prompts.py:10-13 | both recorded prompts start empty and no overlay is set |
| Settings.SetLastFinalPrompt | touchfs/config/prompts.py:125-144 | the last final prompt reads back as the one set; the other state is unchanged |
| Settings.SetCurrentFilesystemPrompt | touchfs/config/prompts.py:146-165 | the filesystem prompt reads back as the one set; the other state is unchanged |
| Settings.SetPromptOverlayPath | touchfs/config/prompts.py:15-23 | the overlay is the path given; both recorded prompts are unchanged |
| Settings.GetPrompt | touchfs/config/prompts.py:68-96 | a non-empty argument wins, then a non-empty TOUCHFS_PROMPT, then the template; the error reading the template raised is raised again |
| Settings.GetFilesystemGenerationPrompt | touchfs/config/prompts.py:98-123 | the argument, then the environment variable, each only when non-empty; nothing otherwise |
| Settings.GetGlobalPrompt | touchfs/config/prompts.py:167-190 | a non-empty argument wins, then a non-empty TOUCHFS_GLOBAL_PROMPT |
| Settings.GlobalPromptPrecedence | touchfs/config/prompts.py:184-212 | the global prompt is the first accepted of: argument, environment, the overlay's `.prompt` and `.touchfs/prompt_default`, the working directory's same two files, and then the template (or "") |
| Settings.OverlayShadowsCwdPrompt | touchfs/config/prompts.py:192-205 | with an overlay set, the overlay's `.prompt` shadows the working directory's |
| Settings.InitialModelState | touchfs/config/model.py:9-11 | the model starts as `gpt-4o-2024-08-06` with no overlay |
| Settings.SetModelOverlayPath | touchfs/config/model.py:13-21 | the overlay is the path given and the model is unchanged |
| Settings.GetModel | touchfs/config/model.py:61-63 | a non-empty TOUCHFS_DEFAULT_MODEL wins, stripped |
| Settings.ModelPrecedence | touchfs/config/model.py:48-81 | without the variable, the model is the first accepted of the working directory's `.model` and `.touchfs/model_default`, then the overlay's, and then the current model |
| Settings.BlankEnvModel | touchfs/config/model.py:62-63 | a variable of only whitespace is accepted before stripping, so the model becomes "" |
| Settings.SetModel | touchfs/config/model.py:83-96 | the stripped name is stored; the guard never raises |
| Settings.SetModelThenGet | touchfs/config/model.py:48-96 | a model set is what `get_model` returns when no variable or file supplies one |
| Settings.ModelFallback | touchfs/config/model.py:80-81 | with no variable and no accepted file, the current model is returned |
| Settings.GetOpenaiKey | touchfs/config/model.py:98-110 | the key when it is set and non-empty; ValueError otherwise |
| Settings.LlmfsGetPrompt | llmfs/config/settings.py:28-60 | a non-empty LLMFS_PROMPT wins over the argument; an argument naming a file gives the file's stripped text; any other non-empty argument is the prompt; otherwise ValueError |
| Settings.GetLogDir | llmfs/config/settings.py:76-82 | LLMFS_LOG_DIR when it is set at all, even to "", else `/var/log/llmfs` |
| Settings.GetLastFinalPrompt | touchfs/config/prompts.py:125-131 | the recorded final prompt; what it returns after each update is stated by `Settings.InitialPromptState` and `Settings.SetLastFinalPrompt` |
| Settings.GetCurrentFilesystemPrompt | touchfs/config/prompts.py:146-152 | the recorded filesystem prompt; stated by `Settings.InitialPromptState` and `Settings.SetCurrentFilesystemPrompt` |
| LlmfsContext.NewBuilder | llmfs/core/context/context.py:27-36 | a fresh builder keeps the given budget, has spent nothing and holds no resources |
| LlmfsContext.MakeResource | llmfs/core/context/context.py:62-72 | the resource for a file carries its path and content, and the path's suffix and final name as metadata |
| LlmfsContext.Offer | llmfs/core/context/context.py:74-81 | a rejected offer leaves the builder unchanged; an accepted one appends the resource and stays within the budget; the budget itself never changes |
| LlmfsContext.AddFileContent | llmfs/core/context/context.py:46-81 | adding a file either changes nothing and answers false, or appends exactly that file's resource, answers true and stays within the budget |
| LlmfsContext.OfferAcceptsIffFits | llmfs/core/context/context.py:42-77 | a file is accepted exactly when the tokens of its JSON rendering fit in what is left of the budget |
| LlmfsContext.OfferKeepsAccounted | llmfs/core/context/context.py:79-80 | accepting a file keeps the running token total equal to the tokens of the renderings of all accepted files |
| LlmfsContext.OfferKeepsBudget | llmfs/core/context/context.py:74-81 | a builder within its budget stays within it whatever is offered |
| LlmfsContext.KeyOf | llmfs/core/context/context.py:150-172 | the sort key is defined exactly when the path has at least one part (otherwise `parts[-1]` raises) |
| LlmfsContext.Group | llmfs/core/context/context.py:156-172 | a path's group is 0 exactly for a one-part `__init__.py`, `__main__.py` or `setup.py`, 1 exactly for a nested path, and 2 for any other top-level file |
| LlmfsContext.GroupOrder | llmfs/core/context/context.py:156-172 | every file of a lower group sorts before every file of a higher group |
| LlmfsContext.SpecialTopLevelOrder | llmfs/core/context/context.py:157-163 | the special top-level files sort as `__init__.py`, then `__main__.py`, then `setup.py` |
| LlmfsContext.NestedInitFirst | llmfs/core/context/context.py:167-172 | within one directory, `__init__.py` sorts before every other file |
| LlmfsContext.AbsoluteIsNested | llmfs/core/context/context.py:152-157 | an absolute path always has more than one part, so every full path the walk sorts falls in the nested group and the top-level special cases never apply to it |
| LlmfsContext.Lead | llmfs/core/context/context.py:83-135 | between two files at most one module header is emitted, and only for that module |
| LlmfsContext.EmitFiles | llmfs/core/context/context.py:125-146 | every resource is rendered exactly once and in order, whatever module headers come between |
| LlmfsContext.EmitHeaders | llmfs/core/context/context.py:92-135 | every module header names the parent directory of some rendered file and is never "." or empty |
| LlmfsContext.PieceLines | llmfs/core/context/context.py:94-146 | a file renders as six lines opening with `# File: <path>` and ending with a blank line; a module header is one line naming the module |
| LlmfsContext.Header | llmfs/core/context/context.py:118-123 | the output opens with five header lines |
| LlmfsContext.BuildLines | llmfs/core/context/context.py:109-146 | building fails with `IndexError` exactly when some resource's path has no parts; otherwise the lines start with the five header lines |
| LlmfsContext.Build | llmfs/core/context/context.py:97-148 | the built context fails exactly when its lines do, and is otherwise those lines joined by newlines |
| LlmfsContext.BuildOrder | llmfs/core/context/context.py:109-146 | the rendered files are a permutation of the builder's resources, sorted by the path key, each rendered once |
| LlmfsContext.FixImportsClean | llmfs/core/context/context.py:228-231 | the import fix leaves text without either broken import unchanged |
| LlmfsContext.Prepare | llmfs/core/context/context.py:221-236 | a collected file is skipped exactly when it cannot be read as UTF-8; otherwise it is offered under its path relative to the directory, with its text as text mode reads it (line ends as "\n"), imports rewritten only in an `__init__.py` |
| LlmfsContext.Offers | llmfs/core/context/context.py:221-236 | every collected file is prepared once, in order |
| LlmfsContext.Accepted | llmfs/core/context/context.py:221-236 | the resources carried by the offers are exactly those of the readable files |
| LlmfsContext.Fill | llmfs/core/context/context.py:220-236 | the loop stops within the offers, keeps the budget and never goes over it |
| LlmfsContext.FillParts | llmfs/core/context/context.py:220-236 | the builder after the loop holds every readable file offered before the stopping point, in order |
| LlmfsContext.FillStop | llmfs/core/context/context.py:233-234 | the loop stops early only at a readable file whose rendering does not fit the remaining budget |
| LlmfsContext.BuildContext | llmfs/core/context/context.py:174-238 | a failing walk makes the whole build fail, and a collected full path without parts makes the sort raise `IndexError` |
| LlmfsContext.BuildContextFiles | llmfs/core/context/context.py:174-238 | the context is built from the collected files sorted by key (a permutation), holding the readable ones up to the first that does not fit, and nothing past it |
| LlmfsContext.FixImports | llmfs/core/context/context.py:228-231 | the import fix changes nothing in text that holds neither broken import |
| LlmfsContext.WouldExceed | llmfs/core/context/context.py:42-44 | the budget test; the offer that uses it accepts exactly what fits, as `LlmfsContext.OfferAcceptsIffFits` states |
| TouchfsContext.NewBuilder | touchfs/core/context/context.py:28-37 | a fresh builder keeps the given budget, has spent nothing and holds no resources |
| TouchfsContext.Format | touchfs/core/context/context.py:106-111 | the block counted and rendered for a file opens with its `# File:` and `Type:` lines and ends with a newline |
| TouchfsContext.MakeResource | touchfs/core/context/context.py:118-130 | the resource carries the file's path, suffix and final name |
| TouchfsContext.ClassifyContent | touchfs/core/context/context.py:84-104 | text is stored as given; bytes are stored as text exactly when the lower-cased suffix is a text extension and they decode as UTF-8 (and then as that decoding), and as base64 otherwise |
| TouchfsContext.EncodedTextStaysText | touchfs/core/context/context.py:84-104 | under a text extension, the UTF-8 bytes of a text are stored exactly as the text itself would be |
| TouchfsContext.TypeLabelSuffix | touchfs/core/context/context.py:107 | the `Type:` label is "unknown" exactly when the path has no suffix, and otherwise is the suffix without its dot |
| TouchfsContext.Offer | touchfs/core/context/context.py:113-139 | a rejected offer leaves the builder unchanged; an accepted one appends the resource and stays within the budget; the budget never changes |
| TouchfsContext.AddFileContent | touchfs/core/context/context.py:58-143 | adding a file either changes nothing and answers false, or appends exactly that file's resource, answers true and stays within the budget |
| TouchfsContext.OfferAcceptsIffFits | touchfs/core/context/context.py:39-56 | a file is accepted exactly when its block can be counted and the count fits in what is left of the budget |
| TouchfsContext.OfferKeepsAccounted | touchfs/core/context/context.py:133-137 | accepting a file keeps the running total equal to the tokens of all accepted blocks |
| TouchfsContext.OfferKeepsBudget | touchfs/core/context/context.py:113-139 | a builder within its budget stays within it whatever is offered |
| TouchfsContext.TokenLimitExample | tests/test_context.py:10-21 | a two-token text fits an empty builder of 100 tokens but not one that has already spent 99 |
| TouchfsContext.Priority | touchfs/core/context/context.py:259-267 | `__init__.py`, `__main__.py` and `setup.py` rank 0, 1 and 2, and every other name ranks 3 |
| TouchfsContext.DirParts | touchfs/core/context/context.py:257 | the directory part of a key is never empty |
| TouchfsContext.SharedPrefix | touchfs/core/context/context.py:270-276 | keys agreeing on a prefix are ordered by what follows it |
| TouchfsContext.TopLevelFirst | touchfs/core/context/context.py:270-271 | a top-level file sorts before every path of any other depth |
| TouchfsContext.ShallowerFirst | touchfs/core/context/context.py:270-272 | among nested files, those in shallower directories come first |
| TouchfsContext.KeySplit | touchfs/core/context/context.py:270-276 | a key ends with the file's priority and then its name |
| TouchfsContext.PriorityOrder | touchfs/core/context/context.py:259-276 | within one directory, files of lower priority sort first |
| TouchfsContext.NameTieBreak | touchfs/core/context/context.py:270-276 | within one directory and priority, files sort exactly as their names do |
| TouchfsContext.StrKeyLess | touchfs/core/context/context.py:275 | one-string keys compare as their strings |
| TouchfsContext.KeyOfInjective | touchfs/core/context/context.py:252-276 | paths whose parts are non-empty share a key exactly when they have the same parts |
| TouchfsContext.SortKeyInjective | touchfs/core/context/context.py:240-279 | two paths share a sort key exactly when they have the same parts |
| TouchfsContext.PartsNonEmpty | touchfs/core/context/context.py:252 | no part of a path is empty |
| TouchfsContext.PackageOrder | tests/test_context.py:23-59 | a small package sorts as `__init__.py`, `__main__.py`, the other top-level files, then the subpackage's `__init__.py` and its other modules |
| TouchfsContext.Formatted | touchfs/core/context/context.py:236 | each resource contributes its stored block, in order |
| TouchfsContext.Render | touchfs/core/context/context.py:225-236 | each piece renders to one output part, in order |
| TouchfsContext.BuildText | touchfs/core/context/context.py:156-238 | building fails with a `RuntimeError` exactly when two different resources share a sort key, whose tuples then compare two dicts; otherwise the text opens with "# Context Information" and a blank line |
| TouchfsContext.JoinStarts | touchfs/core/context/context.py:221-238 | joining a header and further parts starts with the header and the separator |
| TouchfsContext.EmitBlocks | touchfs/core/context/context.py:225-236 | the blocks of the output are exactly the resources' blocks, in order, whatever module headers come between |
| TouchfsContext.EmitHeaders | touchfs/core/context/context.py:227-233 | every module header names the parent of some resource and is never "." or empty |
| TouchfsContext.EmitOneModule | touchfs/core/context/context.py:227-233 | resources that all sit in one module other than "." get exactly one header, in front of their blocks |
| TouchfsContext.EmitSameModule | touchfs/core/context/context.py:230-233 | resources staying in the current module get no header |
| TouchfsContext.ReadAs | touchfs/core/context/context.py:422-436 | a file is skipped exactly when reading it fails; it is read as text exactly when it decodes, with its line ends read as "\n", and as its raw bytes otherwise |
| TouchfsContext.Prepare | touchfs/core/context/context.py:418-438 | a readable file is offered under its path relative to the directory, as text with "\n" line ends when it decodes and as its encoded bytes otherwise; an unreadable one is skipped |
| TouchfsContext.Offers | touchfs/core/context/context.py:418-438 | every collected file is prepared once, in order |
| TouchfsContext.Accepted | touchfs/core/context/context.py:418-439 | the resources carried by the offers are exactly those of the readable files |
| TouchfsContext.Fill | touchfs/core/context/context.py:418-439 | the loop stops within the offers, keeps the budget and never goes over it |
| TouchfsContext.FillParts | touchfs/core/context/context.py:418-439 | the builder after the loop holds every readable file offered before the stopping point, in order |
| TouchfsContext.FillStop | touchfs/core/context/context.py:438-439 | the loop stops early only at a readable file whose block does not fit the remaining budget |
| TouchfsContext.FillAccounted | touchfs/core/context/context.py:133-137 | the loop keeps the running total equal to the tokens of the accepted blocks |
| TouchfsContext.BuildContext | touchfs/core/context/context.py:349-441 | a failing walk makes the build fail; a successful build opens with "# Context Information" |
| TouchfsContext.BuildContextFiles | touchfs/core/context/context.py:349-441 | the files offered are those the walk keeps, permuted into key order; the context holds the readable ones up to the first that does not fit, and nothing past it |
| TouchfsContext.WouldExceed | touchfs/core/context/context.py:48-56 | the budget test, true also when the counter fails; stated through `TouchfsContext.OfferAcceptsIffFits` |
| TouchfsContext.Classify | touchfs/core/context/context.py:84-104 | the stored text and content type of a file; stated by `TouchfsContext.ClassifyContent` and `EncodedTextStaysText` |
| ContextWalk.RStripChars | touchfs/core/context/context.py:379 | stripping trailing characters keeps a prefix of the pattern that no longer ends in one of them, and removes only those characters |
| ContextWalk.AnyMatch | touchfs/core/context/context.py:379-386 | the exclusion test answers true exactly when some pattern of the selected kind (directory patterns for roots, the others for files) matches; it raises only if some selected pattern has no components |
| ContextWalk.AnyMatchSkip | touchfs/core/context/context.py:379-386 | a pattern of the other kind is never tried |
| ContextWalk.AnyMatchStep | touchfs/core/context/context.py:379-386 | the first selected pattern that matches answers at once; one that does not match passes on to the rest |
| ContextWalk.Kept | touchfs/core/context/context.py:382-389 | the files kept from one directory are exactly its wanted ones, as full paths, and an error in any exclusion test escapes |
| ContextWalk.Contribution | touchfs/core/context/context.py:377-389 | a directory whose root matches a directory pattern contributes nothing; otherwise it contributes its kept files |
| ContextWalk.Collect | touchfs/core/context/context.py:376-389 | the collected files are exactly the contributions of every directory of the walk, and the collection fails exactly when some contribution does |
| ContextWalk.OneComponent | touchfs/core/context/context.py:386 | a relative pattern without slashes is a single component |
| ContextWalk.NameMatch | touchfs/core/context/context.py:386 | such a pattern is matched against the file's name alone |
| ContextWalk.PycPattern | touchfs/core/context/context.py:368-386 | "*.pyc" excludes exactly the files whose name ends in ".pyc" |
| ContextWalk.GitPattern | touchfs/core/context/context.py:368-386 | "*.git*" excludes exactly the files whose name contains ".git" |
| ContextWalk.DefaultShape | touchfs/core/context/context.py:368-369 | the default exclusions are "*.pyc", "*/__pycache__/*" and "*.git*", and only the middle one is a directory pattern |
| ContextWalk.FileThree | touchfs/core/context/context.py:386 | with a directory pattern between two file patterns, a file is excluded exactly when either file pattern matches it |
| ContextWalk.DirThree | touchfs/core/context/context.py:379 | with a directory pattern between two file patterns, a root is excluded exactly when the stripped directory pattern matches it |
| ContextWalk.DefaultFileExclusion | touchfs/core/context/context.py:368-387 | under the default patterns, a file is skipped exactly when its name ends in ".pyc" or contains ".git" |
| ContextWalk.PycacheStripped | touchfs/core/context/context.py:379 | stripping "/" and "*" from the end of "*/__pycache__/*" leaves "*/__pycache__" |
| ContextWalk.SplitTwo | touchfs/core/context/context.py:379 | two pieces joined by a separator neither contains split back into those pieces |
| ContextWalk.PycacheSplit | touchfs/core/context/context.py:379 | the stripped directory pattern splits into "*" and "__pycache__" |
| ContextWalk.PycacheGlob | touchfs/core/context/context.py:379 | the stripped directory pattern is relative, with the parts "*" and "__pycache__" |
| ContextWalk.PycacheParts | touchfs/core/context/context.py:379 | parsing keeps both of those segments |
| ContextWalk.TwoComponentMatch | touchfs/core/context/context.py:379 | a relative two-component pattern is matched against the root's last two parts |
| ContextWalk.StarLiteralDir | touchfs/core/context/context.py:379 | "*" followed by a literal matches exactly the roots with at least two parts whose last part is that literal |
| ContextWalk.PycacheMatch | touchfs/core/context/context.py:379 | the stripped directory pattern matches exactly the roots with at least two parts whose last part is "__pycache__" |
| ContextWalk.LiteralName | touchfs/core/context/context.py:379 | "__pycache__" has no wildcards |
| ContextWalk.DefaultDirExclusion | touchfs/core/context/context.py:368-380 | under the default patterns, a directory is skipped exactly when it has at least two parts and its last part is "__pycache__"; a file inside it is not matched by that test |
| PurePath.Anchor | llmfs/core/context/context.py:152 | a path's anchor is "", "/" or "//", and it is non-empty exactly when the path starts with a slash |
| PurePath.Components | llmfs/core/context/context.py:152 | the parsed components are never empty, never "." and hold no slash |
| PurePath.ComponentsOfPlain | llmfs/core/context/context.py:152 | segments that are already plain components are kept as they are |
| PurePath.Tail | llmfs/core/context/context.py:152 | every component after the anchor is non-empty, not "." and holds no slash |
| PurePath.Parts | llmfs/core/context/context.py:152 | a path's parts are its anchor, when it has one, followed by its components |
| PurePath.Str | llmfs/core/context/context.py:92-128 | rendering a path never gives the empty string |
| PurePath.Parent | llmfs/core/context/context.py:92-128 | a path's parent is never the empty string |
| PurePath.Name | llmfs/core/context/context.py:69 | a path's name holds no slash |
| PurePath.Suffix | llmfs/core/context/context.py:68 | a suffix is empty, or a dot followed by at least one character that ends the name |
| PurePath.Stem | llmfs/content/plugins/cache_control.py:58 | the stem followed by the suffix is the name |
| PurePath.NameOfPlain | llmfs/content/plugins/cache_control.py:58 | a single component is its own name |
| PurePath.NameOfChild | touchfs/content/plugins/executive.py:115 | a further component becomes the path's name |
| PurePath.NameSkipsDot | touchfs/content/plugins/executive.py:97 | a further "." component changes neither the name nor the suffix |
| PurePath.Match | llmfs/core/context/context.py:197-212 | matching raises `ValueError` exactly when the pattern has no parts; a match means the pattern has no more parts than the path and its parts match the path's last parts one by one |
| PurePath.MatchOneComponent | llmfs/core/context/context.py:212 | a one-component relative pattern is matched against the name alone |
| Fnmatch.LiteralMatches | llmfs/core/context/context.py:187-212 | a pattern without wildcards matches exactly itself |
| Fnmatch.StarMatchesAll | llmfs/core/context/context.py:187-197 | "*" matches every name |
| Fnmatch.LeadingStar | llmfs/core/context/context.py:187-212 | a leading "*" matches exactly when the rest of the pattern matches some suffix of the name |
| Fnmatch.LiteralThenStar | llmfs/core/context/context.py:187-212 | a literal followed by "*" matches exactly the names that start with it |
| Fnmatch.StarThenLiteral | llmfs/core/context/context.py:187-212 | "*" followed by a literal matches exactly the names that end with it |
| Fnmatch.StarLiteralStar | llmfs/core/context/context.py:187-212 | a literal between two stars matches exactly the names that contain it |
| Outline.Branch | llmfs/content/plugins/tree.py:25-28 | the branch in front of a child is "└── " for the last child and "├── " otherwise, wrapped in yellow in the coloured style |
| Outline.Step | llmfs/content/plugins/tree.py:29 | a subtree is indented by four spaces below the last child and by "│   " otherwise, wrapped in yellow in the coloured style; the step is never shorter than four characters |
| Outline.ChildMap | llmfs/content/plugins/tree.py:19 | a node without a children map is read as having no children, and one with a map gives that map |
| Outline.Names | llmfs/content/plugins/tree.py:20-23 | the names of the children, one per child, in order |
| Outline.Ordered | llmfs/content/plugins/readme.py:21-22 | the names visited are a permutation of the children map's keys, all present in it, ascending when sorted and in the map's own order otherwise |
| Outline.Pairs | llmfs/content/plugins/readme.py:21-25 | each visited child is paired with the path the children map gives it; names ascending when sorted and in the map's own order otherwise, each key once |
| Outline.DirnamePrefix | touchfs/cli/mount/filesystem.py:28 | a path's `dirname` is a prefix of it |
| Outline.ChildLonger | touchfs/cli/mount/filesystem.py:28 | a path other than `path` whose `dirname` is `path` is longer than it |
| Outline.ScanMap | touchfs/cli/mount/filesystem.py:26-30 | every name in the collected map comes from a stored child under its own name, and every stored child's name is in the map (a later path with the same name overwrites an earlier one) |
| Outline.ScanKids | touchfs/cli/mount/filesystem.py:26-36 | the scanned children are stored paths whose parent is `path`, each under its base name, in ascending name order |
| Outline.ScanKidsComplete | touchfs/cli/mount/filesystem.py:26-30 | every stored child of `path` is found under its base name |
| Outline.Kids | llmfs/content/plugins/tree.py:19-24 | the children come from the node's children map, sorted or in map order, where a missing node raises `KeyError`, or from the scan of all stored paths, which never fails |
| Outline.KidsLonger | touchfs/cli/mount/filesystem.py:26-30 | in a store whose children links lead to longer paths, every child's path is longer than its parent's, so the walk terminates |
| Outline.Level | llmfs/content/plugins/tree.py:38 | the rows drawn at one depth are among the rows drawn |
| Outline.LevelAppend | llmfs/content/plugins/tree.py:38-42 | the rows at one depth of two row lists joined are those of each, in order |
| Outline.LevelDeeper | llmfs/content/plugins/tree.py:29-42 | rows that are all indented further than a depth contribute nothing at that depth |
| Outline.Walk | llmfs/content/plugins/tree.py:15-44 | walking below a node that is missing from the store raises `KeyError`; a successful walk draws stored nodes, puts nothing beneath a child it does not descend into, and draws the node's children in order at the top level, marking only the last |
| Outline.WalkAll | llmfs/content/plugins/tree.py:22-44 | the rows for the later children and their subtrees keep the same shape |
| Outline.WalkAllMissing | llmfs/content/plugins/tree.py:23-24 | a child missing from the store makes the whole walk raise |
| Outline.ScanWalkOk | touchfs/cli/mount/filesystem.py:12-58 | the walk over scanned children never fails, since every child it finds is stored |
| Outline.ScanWalkAllOk | touchfs/cli/mount/filesystem.py:35-55 | the rows for the stored children of a scan are always drawn without failure |
| Outline.ScanWalkAllCons | touchfs/cli/mount/filesystem.py:35-55 | one step of the scan walk draws the child's row, then its subtree when it is a directory, then the rows of the later children |
| Outline.WalkAllStep | llmfs/content/plugins/tree.py:22-42 | a child's row, its subtree and the rows of the later children together keep the walk's shape |
| Outline.StepBeneath | llmfs/content/plugins/tree.py:29-42 | a subtree drawn with a longer indent sits strictly beneath the child's row |
| Outline.StepLevel | llmfs/content/plugins/tree.py:22-42 | the top level of a step is the child's row followed by the top level of the later children |
| Outline.StepFlat | llmfs/content/plugins/tree.py:41-42 | nothing is nested under a child the walk does not descend into |
| Outline.Render | llmfs/content/plugins/tree.py:38 | one line per row, in order |
| Outline.RenderAppend | llmfs/content/plugins/tree.py:38-42 | rendering two row lists joined gives the lines of each, in order |
| Outline.RowNames | llmfs/content/plugins/tree.py:38 | the names of the rows, in order |
| Outline.SortedTops | llmfs/content/plugins/readme.py:22-33 | a top level drawn from the sorted children map holds each of its entries once, in ascending order, with the last one marked |
| Outline.SortedWalkLevel | llmfs/content/plugins/readme.py:17-47 | the top level of a walk by sorted children map is that node's children, each once, in ascending name order |
| TreePlugin.ClaimsOwnPath | llmfs/content/plugins/tree.py:6-13 | the tree plugin claims `/.llmfs/tree` and not a `tree` file at the root or in a nested `.llmfs` directory |
| TreePlugin.GeneratorName | llmfs/content/plugins/tree.py:33-35 | a file is labelled with its `generator` xattr, and with `default` when it has none, whether it has no xattrs at all or other xattrs only |
| TreePlugin.BuildTree | llmfs/content/plugins/tree.py:15-44 | a missing node raises `KeyError`; otherwise the lines are the walk below the node, children in the map's stored order, descending into directories only, one line per row |
| TreePlugin.Generate | llmfs/content/plugins/tree.py:46-57 | a store without "/" raises `KeyError`; otherwise the text is the header, then "/" and the tree's lines joined by newlines |
| TreePlugin.Labels | llmfs/content/plugins/tree.py:31-38 | every file's line ends in the label naming its generator, and no other line carries a label |
| TreePlugin.LineStarts | llmfs/content/plugins/tree.py:38 | every line starts with its indent, branch and name |
| TreePlugin.RootChildren | llmfs/content/plugins/tree.py:19-55 | the lines at the root's own level are its children in the order its children map stores them, the last behind `└── ` and the others behind `├── ` |
| TreePlugin.StoredTops | llmfs/content/plugins/tree.py:20-28 | a top level drawn from a children map in its stored order lists each entry once behind the branch its position calls for |
| TreePlugin.OnlyDirectoriesNest | llmfs/content/plugins/tree.py:40-42 | a line is indented deeper than the one before it only below a directory |
| TreePlugin.GeneratedLines | llmfs/content/plugins/tree.py:49-57 | after the header, splitting the text at newlines gives back "/" and the tree's lines |
| LlmfsReadme.Overlay | llmfs/content/plugins/readme.py:12-15 | the overlay file is `/README.llmfs`, a file whose only xattr names the readme plugin |
| LlmfsReadme.OverlayClaimed | llmfs/content/plugins/readme.py:12-15 | the plugin's one overlay file is `/README.llmfs`, and a node with that file's xattrs is claimed at any path |
| LlmfsReadme.Status | llmfs/content/plugins/readme.py:40-45 | a file is marked auto-generated exactly when it has a `generator` xattr, and static otherwise |
| LlmfsReadme.Lines | llmfs/content/plugins/readme.py:33-45 | a file's row gives two lines, its name and its status, and any other row gives one |
| LlmfsReadme.BuildTree | llmfs/content/plugins/readme.py:17-47 | a missing node raises `KeyError`; otherwise the lines are the walk below the node by sorted name, descending into directories only, each row's lines in turn |
| LlmfsReadme.Generate | llmfs/content/plugins/readme.py:49-63 | a store without "/" raises `KeyError`; otherwise the tree's lines, joined by newlines, sit between the fixed head and foot |
| LlmfsReadme.OneStatusPerFile | llmfs/content/plugins/readme.py:33-45 | every row gives one line and every file one more, its status |
| LlmfsReadme.RootChildrenSorted | llmfs/content/plugins/readme.py:21-33 | the root's own level lists its children once each, by ascending name, with the last behind `└── ` |
| TouchfsReadme.ClaimsOwnPath | touchfs/content/plugins/readme.py:23-30 | the plugin claims `/.touchfs/readme` and not a `readme` file at the root or in a nested `.touchfs` directory |
| TouchfsReadme.Pad | touchfs/content/plugins/readme.py:60 | the padding is at least one space and brings a shorter line up to column 40 |
| TouchfsReadme.Using | touchfs/content/plugins/readme.py:68-69 | the prompt note is empty when no prompt file was found, and otherwise names the prompt path without its first character |
| TouchfsReadme.Tag | touchfs/content/plugins/readme.py:62-70 | a file is tagged auto-generated exactly when it has a `generator` xattr, and otherwise generated on first read, naming the nearest prompt file |
| TouchfsReadme.LineShape | touchfs/content/plugins/readme.py:56-74 | a file's tag starts at column 40, or one space after a name that reaches it, with only spaces before it; any other row is its branch and name alone |
| TouchfsReadme.BuildTree | touchfs/content/plugins/readme.py:38-78 | a missing node raises `KeyError`; otherwise the lines are the walk below the node by sorted name, in colour, descending into every child that is not a file, one line per row |
| TouchfsReadme.RootChildrenSorted | touchfs/content/plugins/readme.py:42-76 | the root's own level lists its children once each, by ascending name, with the last behind `└── `, and nothing is drawn beneath a file |
| TouchfsReadme.PreviewShape | touchfs/content/plugins/readme.py:116-121 | content of at most 200 characters is previewed whole, only stripped; longer content is cut to 200 stripped characters and ends in "..." |
| TouchfsReadme.Described | touchfs/content/plugins/readme.py:94-108 | a special file gets one description entry exactly when its name is among the known special files |
| TouchfsReadme.Managed | touchfs/content/plugins/readme.py:110-113 | a special file gets one managing-plugin entry exactly when it has a `generator` xattr |
| TouchfsReadme.Previewed | touchfs/content/plugins/readme.py:115-121 | a special file gets one preview entry exactly when its content is truthy, and text content gets the fenced preview |
| TouchfsReadme.Section | touchfs/content/plugins/readme.py:102-121 | a special file's section is its heading, followed by its description, managing plugin and preview when it has each |
| TouchfsReadme.Listed | touchfs/content/plugins/readme.py:102-103 | the special files are listed one per child of the directory |
| TouchfsReadme.Overview | touchfs/content/plugins/readme.py:80-123 | without `/.touchfs` the overview is the fixed message; otherwise it is drawn exactly when every special file is listed, and is the opening and the sections by sorted name, one entry per line |
| TouchfsReadme.ListedOkIff | touchfs/content/plugins/readme.py:102-121 | the overview is drawn exactly when every special file is stored and none holds byte content too long to preview, whose ellipsis cannot be added to bytes |
| TouchfsReadme.ListedItems | touchfs/content/plugins/readme.py:102-103 | the listed files are the children in order, each with its stored node |
| TouchfsReadme.FileNames | touchfs/content/plugins/readme.py:102-104 | the names of the listed files, in order |
| TouchfsReadme.ListedFromPairs | touchfs/content/plugins/readme.py:102-103 | files taken one per sorted child entry list the directory's children |
| TouchfsReadme.OverviewListsChildren | touchfs/content/plugins/readme.py:88-104 | the overview has one section per child of `/.touchfs`, each child once, by ascending name, with its stored node |
| TouchfsReadme.SectionsAppend | touchfs/content/plugins/readme.py:102-121 | the sections of two lists of files joined are those of each, in order |
| TouchfsReadme.FirstHeading | touchfs/content/plugins/readme.py:91-104 | the first file's heading directly follows the opening |
| SimpleTree.Shown | touchfs/cli/mount/filesystem.py:57-58 | every kept line has a non-blank character |
| SimpleTree.BranchShows | touchfs/cli/mount/filesystem.py:44-58 | every line holds a branch glyph, so none is dropped as blank |
| SimpleTree.ShownAll | touchfs/cli/mount/filesystem.py:58 | filtering lines that all show keeps them all |
| SimpleTree.JoinNonEmpty | touchfs/cli/mount/filesystem.py:58 | joining lines whose first is non-empty gives a non-empty text |
| SimpleTree.CleanAppend | touchfs/cli/mount/filesystem.py:55 | two lists of clean lines joined are clean |
| SimpleTree.CleanCons | touchfs/cli/mount/filesystem.py:48-55 | a clean line followed by clean lines is clean |
| SimpleTree.FormatIsWalk | touchfs/cli/mount/filesystem.py:12-58 | when no stored path holds a newline, the drawing is the scan walk's rows (by sorted name, directories descended into) one line each, joined by newlines; splitting subtrees and dropping blank lines lose nothing |
| SimpleTree.BelowIsWalk | touchfs/cli/mount/filesystem.py:51-55 | a subtree's lines, split back out of its text, are its rows' lines |
| SimpleTree.FormatAllIsWalk | touchfs/cli/mount/filesystem.py:35-55 | the children's lines are the scan walk's rows over them, one clean line each |
| SimpleTree.LineClean | touchfs/cli/mount/filesystem.py:39-47 | a row's line holds no newline when its indent and name hold none, and it shows |
| SimpleTree.RenderCons | touchfs/cli/mount/filesystem.py:47-55 | a child's line, its subtree's lines and the later lines are the lines of the child, its subtree and the later rows |
| SimpleTree.FormatAllHead | touchfs/cli/mount/filesystem.py:35-48 | with at least one child, the first line is the first child's and shows |
| SimpleTree.FormatEmptyIff | touchfs/cli/mount/filesystem.py:26-58 | the drawing is empty exactly when the node has no stored children |
| SimpleTree.NoBlankLines | touchfs/cli/mount/filesystem.py:54-58 | split back at newlines, a non-empty drawing has no blank line |
| SimpleTree.TopLevel | touchfs/cli/mount/filesystem.py:26-48 | the top level lists, by ascending name, exactly the stored paths whose parent is the node, each under its base name |
| SimpleTree.Format | touchfs/cli/mount/filesystem.py:12-58 | the tree drawing `format_simple_tree` computes; what it draws is stated by `SimpleTree.FormatIsWalk`, `FormatEmptyIff` and `NoBlankLines` |
| TreePlugin.Line | llmfs/content/plugins/tree.py:38 | one row's line: indent, branch, name and, for a file, its generator tag; its opening is stated by `TreePlugin.LineStarts` |
| TouchfsReadme.Line | touchfs/content/plugins/readme.py:56-74 | one row's line, a file's padded to the tag column; its layout is stated by `TouchfsReadme.LineShape` |
| GenerateCli.CheckArgs | touchfs/cli/generate/cli.py:48-51 | the only refusal of the argument check is exit status 1 |
| GenerateCli.CheckArgsIff | touchfs/cli/generate/cli.py:48-51 | the check lets the command go on exactly when there is no generation prompt (or an empty one) or exactly one target |
| GenerateCli.DirNode | touchfs/cli/generate/cli.py:87-90 | a new directory node is a directory with an empty children map |
| GenerateCli.FileNode | touchfs/cli/generate/cli.py:97-100 | a listed file becomes a file node with null content and no children map |
| GenerateCli.Initial | touchfs/cli/generate/cli.py:77 | the conversion starts from a store holding only the root, an empty directory |
| GenerateCli.Puts | touchfs/cli/generate/cli.py:87-97 | storing a node changes only its own path and keeps the store well formed |
| GenerateCli.Links | touchfs/cli/generate/cli.py:92-101 | linking a child changes only that name in the children map |
| GenerateCli.Enter | touchfs/cli/generate/cli.py:85-93 | entering a directory part fails exactly when the current node has no children map (a `KeyError` on a file node); otherwise the part's directory is stored |
| GenerateCli.Descend | touchfs/cli/generate/cli.py:84-93 | following the directory parts ends at the path that joining them gives, and that path is stored |
| GenerateCli.AddFile | touchfs/cli/generate/cli.py:79-101 | after a listed path is added, "/" followed by the path holds a file node |
| GenerateCli.Build | touchfs/cli/generate/cli.py:78-101 | adding the listed paths one after the other keeps the store well formed |
| GenerateCli.ToTree | touchfs/cli/generate/cli.py:77-101 | the converted store is well formed |
| GenerateCli.GrowsTransitive | touchfs/cli/generate/cli.py:78-101 | keeping every stored path and file node carries across steps |
| GenerateCli.EnterGrows | touchfs/cli/generate/cli.py:85-93 | entering a part keeps every stored path and file node, and links the part under the current node |
| GenerateCli.DescendGrows | touchfs/cli/generate/cli.py:84-93 | following the directory parts keeps every stored path and file node |
| GenerateCli.AddFileGrows | touchfs/cli/generate/cli.py:79-101 | adding a listed path keeps every stored path, and every file node except at the file's own path |
| GenerateCli.KeepsRoot | touchfs/cli/generate/cli.py:79-101 | the root stays stored |
| GenerateCli.AddFileLinks | touchfs/cli/generate/cli.py:84-101 | the file is linked under its last component in the directory its path leads to, unless the file node replaced that directory |
| GenerateCli.BuildStoresFiles | touchfs/cli/generate/cli.py:78-101 | a successful conversion leaves a file node at every listed path; reaching a file as a directory fails instead |
| GenerateCli.ToTreeStoresFiles | touchfs/cli/generate/cli.py:77-101 | every path of the generated list is a file node with null content in the converted store |
| GenerateCli.EmptyPathReplacesRoot | touchfs/cli/generate/cli.py:80-101 | an empty listed path replaces the root with a file node, and the link is made on the replaced root |
| TouchPaths.DirnamePrefix | touchfs/cli/touch/path_utils.py:34 | `dirname` keeps a prefix of its argument |
| TouchPaths.DirnameShrinks | touchfs/cli/touch/path_utils.py:34-39 | `dirname` leaves a path as it is or shortens it, so the walk up terminates |
| TouchPaths.Upward | touchfs/cli/touch/path_utils.py:25-39 | the walk up never looks in "/" inside the loop, and starts at the path itself |
| TouchPaths.IsPathInTouchfs | touchfs/cli/touch/path_utils.py:8-55 | the answer is true exactly when the path resolves and a directory on its walk up, or the root, holds `.touchfs`; a path that does not resolve answers false |
| TouchPaths.UpwardIsChain | touchfs/cli/touch/path_utils.py:25-39 | from a normalised absolute path, the walk looks in exactly the directories from the path up to, but not including, the root |
| TouchPaths.ChainMarked | touchfs/cli/touch/path_utils.py:25-48 | the walk and the final root check find a marker exactly when some directory from the root down to the path holds one |
| TouchPaths.InTouchfsIff | touchfs/cli/touch/path_utils.py:18-52 | a path that resolves to a normalised one is inside a mount exactly when some directory from the root down to it holds the marker |
| TouchPaths.Keep | touchfs/cli/touch/path_utils.py:70-82 | each side of the split holds only arguments that landed on it |
| TouchPaths.KeepSnoc | touchfs/cli/touch/path_utils.py:70-82 | one more argument lands at the end of exactly one side |
| TouchPaths.KeepPartitions | touchfs/cli/touch/path_utils.py:67-88 | the two sides together hold every argument exactly once, and every argument is on the side its test calls for |
| TouchPaths.Absolutes | touchfs/cli/touch/path_utils.py:70-71 | each argument is made absolute, in order |
| TouchPaths.CategorizePaths | touchfs/cli/touch/path_utils.py:57-88 | the first list holds exactly the absolute paths inside a mount and the second exactly the others, each in argument order; together they are a permutation of the absolute paths |
| Models.NodeOfFields | llmfs/models/filesystem.py:11-17 | field by field, a node validates only with a `type` and `attrs`; an absent content defaults to "" and a null content stays null |
| Models.DumpNode | llmfs/models/filesystem.py:11-17 | dumping a node gives a well-formed mapping |
| Models.DumpNodeFields | llmfs/models/filesystem.py:11-17 | a dumped node holds its type name, content, children, dumped attributes and xattrs under the field names |
| Models.DumpAttrsFields | llmfs/models/filesystem.py:5-9 | dumped attributes hold `st_mode`, `st_uid` and `st_gid` under their names |
| Models.NodeOfDumpedFields | llmfs/models/filesystem.py:11-17 | validating the fields of a dumped node gives the node back |
| JsonFs.RootNode | llmfs/core/jsonfs.py:27-36 | the root of a fresh filesystem is a directory with empty children and empty attributes |
| JsonFs.FindKey | llmfs/core/jsonfs.py:47-52 | "" and "/" are read under the root's key |
| LegacyFs.RootOf | llmfs/core/operations.py:55-58 | the root of an empty start is a directory with mode `S_IFDIR|0o755` |
| LegacyFs.FsJsonOf | llmfs/core/operations.py:60-66 | `/fs.json` is a file with mode `S_IFREG|0o644` holding the given text |
| LegacyFs.FsJsonLink | llmfs/core/operations.py:71 | after an empty start the root lists `fs.json` alone |
| LegacyFs.ReaddirRoot | llmfs/core/operations.py:207-211 | the root of an empty start lists `.`, `..` and its children |
| LegacyFs.IntAttr | llmfs/core/operations.py:128-134 | an attribute is kept only when its name starts with `st_` and it is stored |
| LegacyFs.Timed | llmfs/core/operations.py:128-144 | the reported integers are the stored ones, with the three times defaulted to the current time |
| LegacyFs.Stat | llmfs/core/operations.py:127-149 | the report built for a node is a well-formed dictionary |
| LegacyFs.GetattrFound | llmfs/core/operations.py:117-149 | `getattr` of a stored normalised path reports the node's attributes with its recomputed size |
| LegacyFs.GetattrNewFile | llmfs/core/operations.py:96-149 | `getattr` right after `create(path, mode)` reports the mode `S_IFREG|mode` and size 0 |
| LegacyFs.NewFileStat | llmfs/core/operations.py:96-149 | a new file reports mode `S_IFREG|mode` and size 0 |
| LegacyFs.CreateAdds | llmfs/core/operations.py:96-115 | `create` under an existing directory adds the new file and hands out the next descriptor |
| LegacyFs.WriteStores | llmfs/core/operations.py:305-324 | a successful `write` to a normalised path stores the spliced node there and returns the data length |
| LegacyFs.TruncateStores | llmfs/core/operations.py:276-281 | `truncate` of a normalised path with non-null content stores the content cut to `length` and records `length` as the size |
| LlmfsMemory.GetSize | llmfs/core/memory/base.py:97-156 | computing a size keeps the store's keys, the descriptors and the open-file table, and changes only the node being sized |
| LlmfsMemory.Open | llmfs/core/memory/file_ops.py:42-85 | `open` keeps the store's keys and reads the node that `find` gives |
| LlmfsMemory.OpenFile | llmfs/core/memory/file_ops.py:45-83 | `open` of a found file hands out the next descriptor, records it for the path, and changes only that file |
| LlmfsMemory.Refilled | llmfs/core/memory/file_ops.py:48-79 | filling a file on `open` changes only that file, to the generated text or to empty text when generation raises |
| LlmfsMemory.OpenCanonical | llmfs/core/memory/file_ops.py:44 | `open` of a normalised path reads the node stored there |
| MemoryBase.Held | llmfs/core/memory/file_ops.py:89-90 | a descriptor's node is found exactly when its recorded path is still stored, and is the node stored there |
| StoreOps.SplitPath | llmfs/core/operations.py:76-80 | the basename `_split_path` gives holds no slash |
| StoreOps.AddNodeAt | llmfs/core/operations.py:96-112 | a parent that cannot be found raises; on success the parent is a directory (for `mkdir`) with a children map, the node is stored and linked under its name |
| StoreOps.AddNodeStore | llmfs/core/operations.py:96-112 | adding under an existing directory stores the node and links its name in the parent, and changes nothing else |
| StoreOps.ReaddirDirectory | llmfs/core/operations.py:207-211 | a stored directory lists `.`, `..` and its children in order |
| StoreOps.ReaddirAfterAddStore | llmfs/core/operations.py:96-112 | after a node is added, its parent lists its children with the new name |
| StoreOps.ReadlinkStored | llmfs/core/memory/link_ops.py:18-20 | `readlink` of a stored normalised path reads its content |
| StoreOps.SymlinkReadlinkAt | llmfs/core/operations.py:260-274 | `readlink` after `symlink` under an existing directory gives the link's source |
| StoreOps.PopChild | llmfs/core/operations.py:240-241 | popping a name succeeds exactly when the parent's children map lists the name, raising `KeyError` otherwise (no map, or an unlisted name, as `dict.pop` does), and changes only the parent |
| StoreOps.RmdirEmptyStore | llmfs/core/operations.py:232-248 | removing an empty directory unlinks it from its parent and deletes it, nothing else |
| StoreOps.UnlinkParts | llmfs/core/operations.py:283-295 | an absent path is left alone; a removed path is gone, its name popped from its parent, and nothing else changes; a failure changes nothing |
| StoreOps.RenameParts | llmfs/core/operations.py:222-230 | an absent source is left alone; a moved source is gone, and the new parent maps the new name to the new path, which holds the node |
| Config.Walk | llmfs/content/plugins/config.py:80-97 | the walk over the directories keeps the accumulated configuration well-formed |
| Config.Effective | llmfs/content/plugins/config.py:71-99 | the configuration in effect in a directory is a well-formed mapping |
| Config.Generate | llmfs/content/plugins/config.py:113-132 | the configuration a config file shows is a well-formed mapping |
| Generator.FilterChildrenTwice | llmfs/content/generator.py:199-203 | filtering a children map twice is filtering it once |
| Generator.FilterNodeTwice | llmfs/content/generator.py:197-203 | filtering a node twice is filtering it once |
| Image.RefusesGif | touchfs/content/plugins/image.py:33-43 | a `.gif` path is not claimed |
| Executive.Trailer | touchfs/content/plugins/executive.py:160-170 | the trailing sections open with the generators title or the key-files title |
| Plugins.ProcFilesAtPaths | touchfs/content/plugins/multiproc.py:24-30 | each overlay file sits at the reserved directory joined with its listed path |
| Registry.RegisterAll | touchfs/content/plugins/registry.py:49-53 | registering plugins in turn keeps the registry well-formed |
| Registry.EnsureDirs | touchfs/content/plugins/registry.py:113-127 | the ancestor loop keeps the store well-formed |
| Registry.Ancestors | touchfs/content/plugins/registry.py:110-127 | creating a proc file's ancestors keeps the store well-formed |
| Registry.Place | touchfs/content/plugins/registry.py:129-131 | storing and linking a proc file keeps the store well-formed |
| Registry.InstallFile | touchfs/content/plugins/registry.py:108-131 | installing one proc file keeps the store well-formed |
| Registry.InstallAll | touchfs/content/plugins/registry.py:59-86 | installing proc files in turn keeps the store well-formed |
| Nodes.Snapshot | llmfs/core/memory/base.py:116-134 | the copy handed to a generator has the same keys, in the same order |
| Nodes.SnapshotStripsVolatile | llmfs/core/memory/base.py:116-134 | each copied node keeps its kind, content, children, xattrs and every attribute except the five volatile ones, which are gone |
| Nodes.LinkChild | llmfs/core/operations.py:112 | linking raises KeyError exactly when the parent has no children map; otherwise the name maps to the path, a new name comes after the others, and every other entry and the rest of the node stay |
| Nodes.UnlinkChild | llmfs/core/operations.py:241 | popping succeeds exactly when the name is listed; then the name is gone from the map and its order, and every other entry and the rest of the node stay |
| Text.Universal | llmfs/core/context/context.py:222-223 | text read in text mode holds no carriage return, is no longer than the raw text, and is the raw text when that holds none |
| Text.UniversalLineEnds | touchfs/core/context/context.py:424-425 | "\r\n" and a lone "\r" both read as "\n" |

## Left out

- Language-model and network calls: the OpenAI structure and content generation in llmfs/llmfs.py, the default generators, the touchfs filesystem generator, the image summarising and DALL-E calls, and both executive summary calls. A generator is a parameter answering content or an exception.
- Foreign libraries: tiktoken, SHA-256, base64, `json.dumps`/`json.loads`, `yaml.safe_load`/`yaml.dump` and pydantic's parser are parameters or abstract inputs, not modelled bit for bit. Where their output matters, a ghost predicate states the property relied on, for example that the cache serialiser sorts keys.
- Operating-system I/O:
  - cache-directory file reads and writes, which are always taken to succeed;
  - `os.walk` and file reads in `build_context`, supplied as an input listing each directory visited;
  - prompt and model file reads (the `Host` parameter);
  - `os.path.realpath`, `abspath` and `exists`.
- `scan_overlay` (touchfs/core/context/context.py:286-347) walks the real overlay directory. It is file-system I/O and is not modelled.
- Touch-process detection in the touchfs `create` (touchfs/core/memory/file_ops.py:47-75, 92-93) reads `/proc` and the working directory of the `touch` process. Its outcome is two parameters of `TouchfsMemory.Create`: `touchDir`, that directory relative to the mount point, and `touched`. The path rewrite and the ENOENT check that follow from `touchDir` are modelled.
- Clock: the wall clock `getattr` reads for missing times (`_get_default_times`, llmfs/core/operations.py:137 and llmfs/llmfs.py:308) is the parameter `now`. `create` reads no clock.
- `utimens` is not modelled (llmfs/core/operations.py:297-303, llmfs/llmfs.py:496-502). It reads the wall clock when no times are given and stores `str(atime)` and `str(mtime)` of Python floats, and the model has no floating point or float-to-text formatting.
- `statfs` is not modelled (llmfs/core/operations.py:257-258, llmfs/llmfs.py:456-457). It ignores its path and returns the constants `f_bsize=512`, `f_blocks=4096`, `f_bavail=2048`, so it has no behaviour over the store to state.
- Logging and its side files are not modelled: they do not change the filesystem.
- The command-line plumbing around `generate_main` is not modelled, apart from the `-F` check and the list-to-tree conversion. That plumbing covers argument parsing, timing, interactive dialogue and `create_file_with_xattr`'s `os.setxattr`.
- Concurrency: the code holds no locks, and every operation is modelled as one atomic step.
- Extended attributes: a stored `xattrs` of `null` and a missing `xattrs` map are conflated. The TypeError Python raises on `"generator" in None` is not modelled.
- MemoryBase.Held: an open-file record holds the path it was opened under, whereas Python holds the node object. The two diverge when a file is renamed or unlinked while open.
- Trigger.GetSize: a `json.dumps` failure inside `_get_size`'s guarded block (bytes content in the older package) is not modelled.
- Outline.Walk: the tree walks require every children link to lead to a longer path. A store whose links lead back up would make Python exhaust its recursion limit, which is not modelled.
- StoreOps.Rmdir: a node's `children` of `null` and a missing `children` key are one state, no children map. `rmdir` reads it as the missing key and raises `KeyError`, so an empty directory stored with `"children": null` is not removed. Python's `if node["children"]:` is false for `None` and removes it (llmfs/core/operations.py:236, llmfs/core/memory/dir_ops.py:52, llmfs/llmfs.py:435). For the same state, StoreOps.Readdir, Nodes.LinkChild and StoreOps.PopChild report `KeyError` where Python raises `TypeError` or `AttributeError` on `None`.
- TouchfsReadme.BuildTree: a `children` entry of `null` reads as an empty map. Python raises AttributeError there, because only a missing entry gets the default `{}`.
- TouchfsReadme.Overview: content previews cover text content and the TypeError that bytes content raises; the other bytes paths are not modelled.
- The fixed template text that `generate` wraps around the tree and the overview is not modelled.
- ConfigPlugins: `find_nearest_model_file` and `find_nearest_prompt_file` are not part of this model. Their answers are parameters.
- Generator.GenerateFileContent: `get_global_prompt`, which llmfs/content/generator.py calls without importing, is a parameter.
- Config.ParentConfig: requires a normalised absolute path. On a relative path Python's upward loop never reaches "/" and does not terminate.
- Cache.Store: a failing `json.dump` or `mkdir` in `cache_response` is not modelled; a store always succeeds.
- Image.Generate: the structured context text that the image prompt is built from is not part of this model. The image plugin takes it as an input.
- Fnmatch.Matches: `[...]` character classes and their `!` negation are read as literal characters; only `*` and `?` are wildcards. Exclude patterns given on the command line reach it through `PurePath.Match`.
- Text.Lower: lower-cases ASCII letters only, where Python's `str.lower()` also folds non-ASCII letters. It stands for `.lower()` in the extension, key-file and plugin-name comparisons.
- Numerals.ParseInt: accepts only ASCII digits without underscores; Python's `int()` also accepts "1_000" and other Unicode decimal digits.

## Findings

| source | as written | input that shows it | evidently intended | confidence | as-written member | corrected member |
|---|---|---|---|---|---|---|
| touchfs/content/plugins/executive.py:91 | the reserved-tree path is cut with `node_path[7:]`, the length of `/.llmfs`, although the touchfs prefix `/.touchfs` is nine characters long | `process_node` on `/.touchfs/readme.md` in the reserved analysis would list `fs/readme.md`; `generate` (executive.py:258) never gets there, because it starts that analysis at "/", which `should_include` rejects, so the cut is dead code and the reserved summary always sees empty statistics (`Executive.ReservedSummaryIsEmpty`) | cut the whole reserved directory name, giving `/readme.md` | high that the cut is wrong, but unreachable from `generate`; not executed | Executive.TouchfsCutKeepsDirTail | Executive.RelPath |
| llmfs/core/operations.py:194-197 | `read` passes `str(self._root)`, the JSON text of the store, where `generate_file_content` expects the structure dictionary, so its first call, `.get` on a string, raises AttributeError and the handler blanks the file | any read of a file whose content is `None` | hand the generator the structure, so the first read returns generated content | high; not executed | LegacyFs.ReadAsWrittenBlanks | LegacyFs.ReadGenerates |
| llmfs/core/operations.py:318-319 | `write` returns `len(data)` after decoding the bytes, a count of characters | writing the two bytes of "é" reports 1 | return the number of bytes written, as FUSE expects | high; not executed | LegacyFs.WriteAsWrittenUndercounts | LegacyFs.Write |
| llmfs/core/memory/file_ops.py:119-129 | `write` returns `len(data)` after decoding the bytes, a count of characters | writing the two bytes of "é" into a file holding "x" reports 1 | return the number of bytes written | high; not executed | LlmfsMemory.WriteAsWrittenUndercounts | LlmfsMemory.Write |
