# Venne/files in Dafny

A model of the file manager of the Venne CMS (`Venne/files`), with proofs about it.

**Entities.** Directories and files are Doctrine entities that share the permission and path logic of `BaseFile`. The older generation of the same entities, `BaseFileEntity`, `FileEntity` and `DirEntity`, is modelled alongside `BaseFile`, `File` and `Dir`.
- Each entry has:
  - a name;
  - a parent directory;
  - a path, derived as the parent's path, a `/`, and the web-safe form of the name;
  - the flags `protected` and `invisible`;
  - an author, and read and write role sets;
  - lazily cached read and write checks;
  - a history (`oldPath`, `oldProtected`), from which a later flush moves the stored file.
- All entities live in one store, class `Entities.Store`: a map from keys to entity records.
  - A key names the directory table or the file table, and the row's number.
  - The store's ghost ranking of the parent pointers makes every walk up or down the tree terminate.
  - The recursive operations of `Dir` (path regeneration, permission propagation, post-order removal) are walks over that forest, proved against reference definitions (modules `Forest`, `Walks`, `Sweeps`).

**Disk.** The storage has two roots: the public directory, served under the public URL, and the protected directory.
- It is a class `Storage.Disk` over a map from paths to `IsFile` or `IsDir`.
- A set of locked paths stands for entries the process may not change.
- Each PHP built-in (`unlink`, `rmdir`, `mkdir`, `copy`, `rename`, the upload's move) is a function of that map. Each is a method on the disk.
- The checked filesystem steps of `File`, `Dir` and their older twins are built from those methods (modules `Steps`, `FileSync`, `FileEntitySync`, `DirSync`). Every exception they can throw is an `Errors.Error` value.

**Around the entities.** Each of these is modelled as the class or functions it is in the source:
- the Doctrine listener that hands every entity its roots and user (`Listeners`);
- the listener that purges the image cache (`Cache`);
- collision-avoiding name suggestion (`Naming`);
- the media macro's URLs and the routes that serve them (`Media`);
- the image presenter's cache path, size and type rules (`Presenter`);
- the side tree of directories, with its expansion state and drag-and-drop, `FilesControl` (`FilesControls`);
- the file browser with its root confinement, state parameters, "Up" button and upload handling, `FileBrowserControl` (`FileBrowsers`);
- the AJAX uploader's per-file loop and error list, `AjaxFileUploaderControl` (`Uploads`).

**Functions the model does not look inside.** Nette's `Strings::webalize`, `filesize`, the MIME probe and the translator are function parameters.

The PHP string built-ins the code relies on are written out in `Php`: `substr`, `strrpos`, `explode`, `implode`, `intval`, `pathinfo` and `basename`.

**Properties beyond what the code states.** Some proved properties follow from the code without being stated in it:
- with the browser's `fileUploadUnlink` as the after-upload handler the uploader never records an error, whatever `fileUpload` does, so the duplicate-entry warning cannot appear after an upload; with a signed-in user, whose `fileUpload` always returns, both handlers run on every file (`FileBrowsers.BrowserUploadsRecordNothing`);
- "Up" from a root that has a parent leaves the root's subtree, and the next request is refused (`FileBrowsers.UpFromRootLeavesRoot`).
- a directory's removal cannot fail when everything it reaches is in order: readable, unlocked files present at their paths, two distinct unlocked directories per directory present, no disk entry shared, and nothing else lying below a directory (`DirSync.PreRemove`, with `DirSync.Sweepable`).

## Model

| member | source | states |
|---|---|---|
| Permissions.AnyRoleHeld | src/Files/BaseFile.php:489-493 | the loop over the read roles raises its flag exactly when the user holds one of them |
| Storage.Unlinked | src/Files/File.php:219 | `unlink` changes nothing but the entry at its path; that entry is gone exactly when it was an unlocked file, and otherwise it is kept as it was |
| Storage.Rmdired | src/Files/Dir.php:222 | `rmdir` changes nothing but the entry at its path; that entry is gone exactly when it was an empty, unlocked directory (`Removable`), and otherwise it is kept as it was |
| Storage.Mkdired | src/Files/Dir.php:238 | `mkdir` changes nothing but the entry at its path: an existing entry stays as it was, and where nothing lay a directory appears exactly when the path is not locked |
| Storage.Copied | src/Files/File.php:157 | `copy` changes nothing but the target entry and never removes it. The target changes only to the source's file, and only when the source is a file and the target is neither locked nor a directory; in that case it then holds a file |
| Storage.Renamed | src/Files/Dir.php:259 | when `rename` cannot go ahead the disk is unchanged; otherwise the source is gone and the target holds what the source held. A file may replace a file and a directory an empty directory |
| Storage.RenamedMovesSubtree | src/Files/DirEntity.php:99 | renaming a directory carries every entry below it to the same relative place below the target |
| Storage.RenamedEmptiesSource | src/Files/DirEntity.php:99 | after a directory is renamed nothing is left below its old path |
| Storage.RenamedOnlyMoves | src/Files/DirEntity.php:99 | every entry after a rename is an entry from before, other than the target, at the place the rename sends it, with its kind kept |
| Storage.RenamedKeepsRest | src/Files/DirEntity.php:99 | a rename leaves every entry where it was unless it is the source, lies below a moved directory, or is the target |
| Storage.MoveKeyInjective | src/Files/Dir.php:259 | two distinct entries never land on the same path after a rename, so no entry is lost |
| Storage.Disk.Unlink | src/Files/File.php:219 | the disk afterwards is the one `unlink` leaves |
| Storage.Disk.Rmdir | src/Files/Dir.php:222 | the disk afterwards is the one `rmdir` leaves |
| Storage.Disk.Mkdir | src/Files/Dir.php:238 | the disk afterwards is the one `mkdir` leaves |
| Storage.Disk.Copy | src/Files/File.php:157 | the disk afterwards is the one `copy` leaves |
| Storage.Disk.Rename | src/Files/File.php:189 | the disk afterwards is the one `rename` leaves |
| Storage.Disk.MoveUpload | src/Files/File.php:136 | moving the upload succeeds exactly when the target is neither locked nor a directory; the target then holds a file and nothing else changed |
| Steps.RenamedFileEntry | src/Files/File.php:189 | renaming a file moves that one entry and overwrites only the target |
| Steps.UnlinkChecked | src/Files/File.php:215-223 | it succeeds exactly when a file that may be removed is there; otherwise it fails with the `RemoveFileException` the missing or surviving file causes. On success the file is gone, and nothing changes on failure |
| Steps.MoveChecked | src/Files/File.php:134-143 | the upload lands at the path exactly when the path is neither locked nor a directory; otherwise it fails with `UploadFileException` and the disk is unchanged |
| Steps.CopyChecked | src/Files/File.php:149-161 | the copy succeeds exactly when the source is a file and the target is free; each failed guard gives its own `RenameFileException` |
| Steps.RenameChecked | src/Files/File.php:181-197 | the rename succeeds exactly when the source is a file, the target is free and neither is locked. Each failed guard names the path it tested, and on success the file has moved |
| Steps.RmdirChecked | src/Files/Dir.php:216-227 | the removal succeeds exactly when an empty, unlocked directory is there; otherwise it fails with the matching `RemoveDirectoryException` and the disk is unchanged |
| Steps.MkdirChecked | src/Files/Dir.php:232-243 | the creation succeeds exactly when the path is free and unlocked; an existing directory and a failed `mkdir` fail with their own `CreateDirectoryException` |
| Cache.PurgedConfined | src/Files/Listeners/CacheCleanerListener.php:37-42 | a purge only deletes files, never a directory and never anything outside the cache directory, and it leaves no unlocked cached copy of the name behind |
| Cache.PurgeIdempotent | src/Files/Listeners/CacheCleanerListener.php:37-42 | purging a second time changes nothing |
| Cache.PurgedAreDeep | src/Files/Listeners/CacheCleanerListener.php:39 | only a path that lies at least four segments below the cache directory is ever removed |
| Cache.Purge | src/Files/Listeners/CacheCleanerListener.php:39-41 | the Finder loop leaves the disk without the matches it may delete |
| Cache.CleanCache | src/Files/Listeners/CacheCleanerListener.php:35-43 | when there is no cache directory nothing happens. Otherwise the read check is cached; a denied read throws with the disk untouched, and an allowed one purges the copies named after the file |
| Php.NatToString | src/Files/File.php:82-85 | the string form of a counter is a non-empty string of decimal digits |
| Php.NatToStringRoundTrip | src/Files/File.php:82-85 | reading back the decimal form of a number gives the number |
| Php.IntValOfNatToString | src/Files/SideComponents/FilesControl.php:111 | `(int)` recovers a number from its decimal form, and the form of a positive number is truthy |
| Php.NatToStringInjective | src/Files/File.php:82-85 | different counters give different names |
| Php.IntValOfDigits | src/Files/File.php:80 | a string of digits is read back whole |
| Php.NatToStringBound | src/Files/File.php:82-86 | a number is below ten to the length of its decimal form, which bounds the counter loop |
| Php.LastIndexOf | src/Files/AdminModule/FilePresenter.php:119 | `strrpos` gives the last position holding the character, or -1 when there is none |
| Php.IndexOf | src/Files/AdminModule/FilePresenter.php:110 | `strpos` gives the first position holding the character, or -1 when there is none |
| Php.Split | src/Files/File.php:76 | `explode` gives at least one part, and no part holds the separator |
| Php.SplitJoin | src/Files/File.php:76-85 | gluing the parts of `explode` with the separator gives back the string |
| Php.SplitSnoc | src/Files/File.php:92 | appending a separator and a piece without separators adds exactly that piece as a last part |
| Php.SplitCons | src/Files/File.php:76 | a first piece without separators becomes the first part |
| Php.SplitAtSeparator | src/Files/AdminModule/FilePresenter.php:110-111 | a string that holds the separator explodes into at least two parts |
| Php.JoinSnoc | src/Files/File.php:85 | imploding one more part appends the separator and that part |
| Php.Reversed | src/Files/Dir.php:84 | `array_reverse` mirrors the positions of the elements |
| Php.Trim | src/Files/File.php:113 | `trim` never lengthens a string, and a non-empty result neither starts nor ends with a trimmed character |
| Php.Basename | src/Files/File.php:113 | the basename of a path holds no "/" |
| Php.Extension | src/Files/File.php:74 | the extension holds neither '.' nor '/' |
| Php.FileName | src/Files/File.php:75 | the file name holds no '/' |
| Php.PathInfoOfJoined | src/Files/File.php:74-75 | `pathinfo` of "stem.ext" gives back the stem and the extension |
| Naming.Parts | src/Files/File.php:75-76 | the file name always has at least one '-'-separated part |
| Naming.SuggestName | src/Files/File.php:68-93 | the name is free in both directories, and a free basename is kept unchanged. A taken basename that ends in a counter (a suffix of digits only) gives the first free name with a higher counter, and any other taken basename first tries "-1" |
| Naming.CountUp | src/Files/File.php:77-90 | the `do … while` ends on a free name that has the least counter above the start among the free ones |
| Naming.RetryInCounterForm | src/Files/File.php:92 | the retried name ends in the counter 1, keeps the old parts and keeps the extension, so the recursive call counts up from 1 |
| Naming.TakenBound | src/Files/File.php:86 | a taken candidate's counter is bounded by the longest path on the disk, so the loop ends |
| Nodes.Fresh | src/Files/BaseFile.php:128-134 | a new entity has no parent, no id, no user and no author; it is visible and unprotected, with no roles |
| Nodes.WithUser | src/Files/BaseFile.php:407-421 | setting the same user again changes nothing. Otherwise the user is stored, the parent, name and roots are kept, and an entity without an author takes the user's identity as its author |
| Nodes.Regenerated | src/Files/BaseFile.php:351-376 | after `generatePath` the path is the parent's path, a '/', then the webalized name; a top-level entity gets the webalized name alone |
| Nodes.AccessCopied | src/Files/BaseFile.php:139-162 | `copyPermission` takes the source's protection and both role lists, keeps the author, and takes the source's user only when there is none yet |
| Nodes.ReplayRemembersOrigin | src/Files/BaseFile.php:367-375 | over any sequence of path changes, an entity with an id remembers its original path, and forgets it exactly while the path is back at the origin |
| Nodes.ReplayWithoutId | src/Files/BaseFile.php:367 | an entity without an id never records a history |
| Listeners.PublicUrl | src/Files/Listeners/FileListener.php:52 | the public URL is the base path followed by the public directory with as many characters cut as the web root is long |
| Listeners.PublicUrlBelowWww | src/Files/Listeners/FileListener.php:52 | a public directory inside the web root is served at the base path followed by its place below the root |
| Listeners.PublicUrlCutsByLength | src/Files/Listeners/FileListener.php:52 | only the length of the web root matters: its characters need not be a prefix of the public directory |
| Listeners.SetUp | src/Files/Listeners/FileListener.php:70-76 | the entity gets the listener's three roots and its user, keeps its parent and name, and an entity without an author takes the user's identity as its author |
| Listeners.SetUpIdempotent | src/Files/Listeners/FileListener.php:55-68 | a second lifecycle event handled by the same listener changes nothing more |
| Listeners.SetUpKeepsCaches | src/Files/Listeners/FileListener.php:70-76 | an entity that already has this user keeps its permission caches and its timestamp; only the roots are replaced |
| Listeners.SetUpSteps | src/Files/Listeners/FileListener.php:72-75 | the four setter calls of `setup` change only that entity and none of the parent links |
| Listeners.FileListener.constructor | src/Files/Listeners/FileListener.php:47-53 | the two directories are stored, the public URL is derived from the base path and the web root, and no user is looked up yet |
| Listeners.FileListener.GetUser | src/Files/Listeners/FileListener.php:81-88 | the answer is the container's user service, and the container is asked only the first time |
| Listeners.FileListener.Setup | src/Files/Listeners/FileListener.php:70-76 | exactly the handled entity is updated as `SetUp` says, and the tree's parent links are unchanged |
| Listeners.FileListener.PrePersist | src/Files/Listeners/FileListener.php:55-58 | the persisted entity is set up and nothing else changes |
| Listeners.FileListener.PreFlush | src/Files/Listeners/FileListener.php:60-63 | the flushed entity is set up and nothing else changes |
| Listeners.FileListener.PostLoad | src/Files/Listeners/FileListener.php:65-68 | the loaded entity is set up and nothing else changes |
| Uploads.UploadingAll | src/Files/AjaxFileUploaderControl.php:131-142 | when `onFileUpload` returns on every file, nothing escapes, both handlers run on every file in order, and exactly the exceptions of `onAfterFileUpload` are recorded, in order |
| Uploads.UploadingStops | src/Files/AjaxFileUploaderControl.php:131-142 | an exception that escapes comes from the first file whose `onFileUpload` throws. Every earlier file ran both handlers, and no handler ran on a later file |
| Uploads.UploadingFirstFail | src/Files/AjaxFileUploaderControl.php:133 | a file whose upload handler throws always ends the loop with an escaped exception |
| Uploads.UploadingStopped | src/Files/AjaxFileUploaderControl.php:133 | once the loop has stopped, the remaining files change nothing |
| Uploads.BothOnEach | src/Files/AjaxFileUploaderControl.php:131-142 | two handler calls per file |
| Uploads.AjaxFileUploader.constructor | src/Files/AjaxFileUploaderControl.php:51-58 | the session's error list starts unset |
| Uploads.AjaxFileUploader.AddError | src/Files/AjaxFileUploaderControl.php:81-92 | the record is appended at the end of the list, and an unset list counts as empty |
| Uploads.AjaxFileUploader.CleanErrors | src/Files/AjaxFileUploaderControl.php:94-97 | the list is empty afterwards |
| Uploads.AjaxFileUploader.GetErrors | src/Files/AjaxFileUploaderControl.php:102-109 | the answer is the recorded list, an unset list being empty, and the list is set afterwards |
| Uploads.AjaxFileUploader.HandleUpload | src/Files/AjaxFileUploaderControl.php:111-147 | the calls made, the errors recorded and the escaped exception are those of `Uploading`, with the list emptied first |
| Uploads.AjaxFileUploader.HandleSuccess | src/Files/AjaxFileUploaderControl.php:149-156 | `onError` fires exactly when an error is recorded, and `onSuccess` fires otherwise; the list is kept |
| Forest.Reparent | src/Files/BaseFile.php:197-209 | moving an entity below a directory outside its own subtree keeps every parent pointer aimed at a strictly shallower directory, so the tree stays a tree |
| Forest.ProgressStep | src/Files/Dir.php:185-196 | finishing the walk below one more child of `k` extends the set of finished branches, and nothing outside `k` changes |
| Forest.ProgressFinish | src/Files/Dir.php:185-196 | once every child of `k` is finished, the whole subtree has been transformed top-down |
| Forest.FileDone | src/Files/Dir.php:190-194 | for a file, transforming the file alone completes its walk, since nothing lies below a file |
| Forest.SelfThenBelow | src/Files/Dir.php:185-196 | transforming a directory and then everything below it is a walk that includes the directory |
| Walks.RegenFrom | src/Files/BaseFile.php:363 | a regenerated entity's path is its current parent's path, a '/', then its webalized name; its name and parent are kept |
| Walks.RegenAfterCheck | src/Files/BaseFile.php:351-376 | regenerating an entity right after its write check passed is exactly one step of the `generatePath` walk, and leaves the links alone |
| Walks.CopyAt | src/Files/BaseFile.php:139-162 | `copyPermission` from the parent is exactly one step of the `setPermissionRecursively` walk |
| Walks.RegenRestores | src/Files/Dir.php:185-196 | a completed `generatePath` walk from an entity repairs every path: whatever changed at that entity, all paths afterwards agree with names and parents |
| Walks.PropagationUniform | src/Files/Dir.php:201-211 | after `setPermissionRecursively`, everything below the directory has the directory's protection and both of its role lists |
| Walks.TouchKeepsConsistent | src/Files/BaseFile.php:226-240 | a change that keeps an entity's name, parent and path, such as a new visibility flag, keeps all paths in agreement |
| Walks.RegenFromPathOnly | src/Files/BaseFile.php:363 | regeneration reads nothing of the parent except its path |
| Walks.BumpCommutes | src/Files/BaseFile.php:177-179 | bumping the timestamp after the `generatePath` walk gives the same walk as bumping it before |
| Walks.ChangeThenRegenConsistent | src/Files/BaseFile.php:167-209 | renaming or moving an entity and then walking `generatePath` from it takes a state where all paths agree to another such state |
| Entities.RenameDone | src/Files/BaseFile.php:167-180 | the states `setName` passes through amount to a `generatePath` walk from the renamed entity with the timestamp bumped, and that walk keeps all paths in agreement |
| Entities.ReparentDone | src/Files/BaseFile.php:197-209 | the states `setParent` passes through amount to a `generatePath` walk from the moved entity, and that walk keeps all paths in agreement |
| Entities.TitleOfChild | src/Files/Dir.php:74-85 | a directory's title is its parent's title, a '/' and its own name |
| Entities.Lineage | src/Files/Dir.php:76-82 | the names from the top of the tree down end with the entity's own name |
| Entities.Store.constructor | src/Files/BaseFile.php:128-134 | an empty store that uses the given webalize function |
| Entities.Store.Create | src/Files/BaseFile.php:128-134 | a new key of the requested table holds a fresh entity, and nothing else changes |
| Entities.Store.CheckRead | src/Files/BaseFile.php:479-498 | the answer is the cached one, or else the read rule's, and the answer is then cached. Only that cache changes |
| Entities.Store.CheckWrite | src/Files/BaseFile.php:503-526 | the answer is the cached one, or else the write rule's, and the answer is then cached. Only that cache changes |
| Entities.Store.Get | src/Files/BaseFile.php:185-192 | a getter gives the entity when reading is allowed and throws `PermissionDeniedException` otherwise; the read answer is cached either way |
| Entities.Store.GeneratePathSelf | src/Files/BaseFile.php:351-376 | a refused write check throws and changes only the cache. An allowed one sets the path from the parent's path and the webalized name, and updates the path history by its rule |
| Entities.Store.Children | src/Files/Dir.php:161-180 | the children are exactly the entities whose parent is this directory, directories and files apart |
| Entities.Store.GeneratePath | src/Files/Dir.php:185-196 | nothing outside the subtree changes and the links stay. On success every entity of the subtree was regenerated top-down; a refused write check throws `PermissionDeniedException`, and a file whose write check passes always succeeds. A directory whose own and subtree's write checks all pass always succeeds, since nothing else in the walk throws |
| Entities.Store.GeneratePathBelow | src/Files/Dir.php:189-195 | the child directories and the files below are regenerated, and the directory itself is kept; when every write check below passes, it succeeds |
| Entities.Store.GeneratePathOf | src/Files/Dir.php:189-195 | the loops finish every child they are given, or stop at a refused check with nothing outside the directory touched; when every write check below the directory passes, they finish |
| Entities.Store.GeneratePathOfChild | src/Files/Dir.php:190 | one child's call finishes that child's branch, or stops with nothing outside the directory touched; a branch the walk has not visited keeps the write checks it had, so it finishes when they all pass |
| Entities.Store.SetName | src/Files/BaseFile.php:167-180 | an unchanged name changes nothing and a refused write check throws. A new name regenerates the subtree's paths and bumps the timestamp, and it keeps all paths in agreement. A file whose write check passes is always renamed, and so is a directory whose subtree passes every write check |
| Entities.Store.NameAndRegenerate | src/Files/BaseFile.php:177-179 | once the write check passed, the new name and the regenerated subtree are those of the `generatePath` walk, with the timestamp bumped; for a file it always succeeds, and for a directory it succeeds when every write check below passes |
| Entities.UnvisitedWritable | src/Files/Dir.php:189-195 | a child's branch that the loops of `generatePath` have not reached yet still passes every write check it passed before the walk |
| Entities.WithinMoved | src/Files/BaseFile.php:197-209 | after `setParent` moves an entity, its subtree holds only what was already below it |
| Entities.Store.SetParent | src/Files/BaseFile.php:197-209 | an unchanged parent changes nothing and a refused write check throws. A new parent is recorded in the links and the moved subtree's paths are regenerated, which keeps all paths in agreement. The move always succeeds for a file whose write check passes, and for an entity whose subtree passes every write check |
| Entities.Store.WriteChecked | src/Files/BaseFile.php:226-240 | the common setter shape: an allowed write stores the new record with the granted check cached; a refused one throws and caches only the answer |
| Entities.Store.SetInvisible | src/Files/BaseFile.php:226-240 | an unchanged flag changes nothing. A new flag is stored behind the write check and bumps the timestamp; a refused check throws |
| Entities.Store.SetProtected | src/Files/BaseFile.php:257-274 | an unchanged flag changes nothing. A new flag is stored behind the write check, the first change remembers the flag it replaced, and the timestamp stays |
| Entities.Store.AddReadRole | src/Files/BaseFile.php:291-298 | behind the write check the role is appended to the read roles; a refused check throws |
| Entities.Store.AddWriteRole | src/Files/BaseFile.php:315-322 | behind the write check the role is appended to the write roles; a refused check throws |
| Entities.Store.SetAuthor | src/Files/BaseFile.php:426-438 | an unchanged author changes nothing. A new author is stored behind the write check and bumps the timestamp |
| Entities.Store.SetUser | src/Files/BaseFile.php:407-421 | exactly the entity becomes `WithUser` of itself, with no check made |
| Entities.Store.SetRoots | src/Files/BaseFile.php:383-402 | exactly the entity's three roots are replaced |
| Entities.Store.AddAll | src/Files/BaseFile.php:155-161 | the loop appends the source's roles after the existing ones, in order |
| Entities.Store.CopiedAccess | src/Files/BaseFile.php:147-161 | clearing and then refilling from another entity gives that entity's access fields; refilling from the entity itself leaves both lists empty |
| Entities.Store.CopyPermission | src/Files/BaseFile.php:139-162 | it copies from the source, or else from the parent, and does nothing without either. No check is made; only the access fields of the entity change |
| Entities.Store.SetPermissionRecursively | src/Files/Dir.php:201-211 | every entity below the directory took `copyPermission` from its parent top-down, the directory itself is kept, and paths stay in agreement |
| Entities.Store.SetPermissionOf | src/Files/Dir.php:203-210 | the loops finish the branch of every child they are given |
| Entities.Store.SetPermissionOfChild | src/Files/Dir.php:204-205 | one child's turn finishes that child's branch |
| Entities.Store.Title | src/Files/Dir.php:74-85 | the title is the names from the top of the tree down to the directory, joined with '/' |
| Sweeps.DeadRoot | src/Files/Dir.php:129-131 | a removal started at a directory already marked removed reaches nothing |
| Sweeps.LiveBelow | src/Files/Dir.php:135-137 | an entity the walk from `k` reaches below a child is reached by that child's own walk |
| Sweeps.LiveAgree | src/Files/Dir.php:129-137 | whether the walk reaches an entity depends only on the subtree it descends |
| DirSync.SweptStep | src/Files/Dir.php:135-141 | one more child swept extends the swept branches |
| DirSync.SweptFinish | src/Files/Dir.php:127-148 | once every child is swept and the directory itself is gone, the whole subtree is swept |
| DirSync.SweptDead | src/Files/Dir.php:129-131 | a walk stopped at its guard sweeps nothing and needs nothing |
| DirSync.FileSwept | src/Files/Dir.php:139-141 | a file's own removal sweeps everything below it, which is the file alone |
| DirSync.PreRemove | src/Files/Dir.php:127-148 | a directory already marked removed is skipped with nothing changed. Otherwise it is marked, the disk only loses entries, and nothing outside the subtree changes; an exception is one of the removal exceptions. On success every reached entity is marked removed and its directories or file are gone. Whatever the outcome, the disk loses only entries that a reached entity takes (`Confined`). The removal succeeds whenever it is `Sweepable`: every reached file may be read and lies unlocked at its path, every reached directory has two distinct unlocked directories, no entry is taken by two reached entities, and whatever lies below a reached directory is taken by a reached entity below it |
| DirSync.ChildSweepable | src/Files/Dir.php:135-141 | a `Sweepable` removal stays `Sweepable` from each child not yet visited, after the earlier children's sweeps: those took none of this child's entries |
| DirSync.KeptStep | src/Files/Dir.php:135-141 | a child's sweep that takes only entries of its own branch keeps the whole walk confined to the visited branches |
| DirSync.OwnConfined | src/Files/Dir.php:144-147 | removing only the directory's own two directories after the loops keeps the walk confined to what it reaches |
| DirSync.OwnRemovable | src/Files/Dir.php:144-147 | after every branch of a `Sweepable` removal is swept, the protected directory and then the public one are empty, unlocked directories, so both `remove` calls succeed |
| DirSync.OwnEmptied | src/Files/Dir.php:135-147 | once every branch is swept, nothing that lay below the directory's own directories is left |
| DirSync.OwnPresent | src/Files/Dir.php:135-141 | the sweeps of the branches leave the directory's own directories in place |
| DirSync.DirsRemovable | src/Files/Dir.php:144-147 | two distinct, unlocked directories that are still there with nothing below them can be removed in turn |
| DirSync.EmptySweepable | src/Files/Dir.php:127-148 | a live directory without children, whose two directories are distinct, unlocked and empty, is `Sweepable`, so its removal succeeds |
| DirSync.FileStep | src/Files/Dir.php:140 | a file's removal takes at most its own file, and a `Sweepable` one finds the file readable, present and unlocked |
| DirSync.ReachedLift | src/Files/Dir.php:135-141 | what the walk from a child reaches, the walk from its live parent reaches as well, unchanged |
| DirSync.RemoveOwn | src/Files/Dir.php:144-147 | the protected directory, then the public one, are removed by `remove`; the first failure stops. It succeeds exactly when each is an empty, unlocked directory in turn, and it removes nothing else |
| DirSync.RemoveChildren | src/Files/Dir.php:135-141 | on success every child was visited and its branch swept, and the directory itself is not touched. The disk loses only entries of reached entities below the children (`Kept`), and a `Sweepable` removal always gets through both loops |
| DirSync.RemoveAll | src/Files/Dir.php:135-141 | each loop sweeps the branch of every child it is given, or stops on the first exception with nothing outside the directory touched. The disk loses only entries of reached entities on the visited branches, and a `Sweepable` removal never stops |
| DirSync.RemoveChild | src/Files/Dir.php:136 | one child's `preRemove` sweeps that child's branch, takes from the disk only entries of that branch, and cannot fail when the whole removal is `Sweepable` |
| DirSync.SweepFile | src/Files/Dir.php:140 | a file's `preRemove` changes only that file and takes at most its file from the disk. On success it is swept, and it succeeds whenever it is `Sweepable` |
| DirSync.PurgeShrinks | src/Files/Listeners/CacheCleanerListener.php:39-41 | the cache purge only deletes |
| DirSync.ReadableBelow | src/Files/DirEntity.php:125-131 | a child not yet visited has a subtree exactly as readable as it was at the start |
| DirSync.ChildCleared | src/Files/DirEntity.php:125-131 | one more child cleared extends the cleared branches |
| DirSync.ClearedFinish | src/Files/DirEntity.php:123-138 | once every child is cleared, the whole subtree is |
| DirSync.EntityPreRemove | src/Files/DirEntity.php:123-138 | without a guard against a second call, the walk completes whenever every file below may be read; only a file's read check can throw. On success every file below is off the disk unless locked, and the directory's own record is unchanged |
| DirSync.EntityRemoveChildren | src/Files/DirEntity.php:125-131 | on success every child was visited, and the walk succeeds whenever every file below may be read |
| DirSync.EntityRemoveAll | src/Files/DirEntity.php:125-131 | each loop clears the branch of every child it is given, and fails only on a refused read |
| DirSync.EntityRemoveChild | src/Files/DirEntity.php:126 | one child's `preRemove` clears that child's branch |
| DirSync.EntitySweepFile | src/Files/DirEntity.php:130 | a file's `preRemove` changes only that file, succeeds when the file may be read, and then clears it |
| DirSync.PostPersist | src/Files/Dir.php:92-99 | the protected directory and then the public one are created. A failure of the first leaves the disk unchanged, and on success both are directories |
| DirSync.PostUpdate | src/Files/Dir.php:106-120 | as written: nothing happens without a previous path. Otherwise it succeeds only when both old paths hold FILES that move, so a real directory is never moved |
| DirSync.PostUpdateRefusesDirectory | src/Files/Dir.php:249-268 | a concrete disk with a directory at the old path: `rename` could move it, but the guards refuse it |
| DirSync.RenameDirChecked | src/Files/Dir.php:249-268 | corrected: it succeeds exactly when a directory is at the source, none at the target, and `rename` can move it; on success the directory and everything in it moved (`Storage.RenamedMovesSubtree`, `Storage.RenamedEmptiesSource`, `Storage.RenamedOnlyMoves`) |
| DirSync.PostUpdateCorrected | src/Files/Dir.php:106-120 | corrected: with a previous path, both directories and everything in them move from the old path to the new one, or the first failure stops |
| DirSync.EntityPreUpdate | src/Files/DirEntity.php:89-116 | with a previous path each existing old directory is renamed to the new one. Without, each missing directory is created; failures are ignored and no existing entry is lost |
| FileSync.FilePathByInjective | src/Files/File.php:231-238 | below one root, different paths name different files |
| FileSync.FilePathBySeparatesRoots | src/Files/File.php:237 | with two distinct roots of equal length, a protected and a public path never name the same file |
| FileSync.FileRenamed | src/Files/File.php:110 | `setName` on a file changes only that file: its name, its regenerated path, its history and its write cache |
| FileSync.GetFilePathBy | src/Files/File.php:231-238 | the root the flag chooses, a '/', then the path, behind the read check; a refused read throws `PermissionDeniedException`. Only the read cache changes |
| FileSync.GetFilePath | src/Files/File.php:244-251 | the file's place under its current root, or only the relative path on request, behind the read check |
| FileSync.GetFileUrl | src/Files/File.php:257-264 | the public URL, a '/' and the path, or only the path on request, behind the read check |
| FileSync.SetFile | src/Files/File.php:269-287 | a failed upload changes nothing. Otherwise the payload is kept for the next flush and the timestamp bumped. A file that already holds stored content and has no remembered path remembers its current path and protection. No check is made |
| FileSync.PreFlush | src/Files/File.php:100-199 | a removed file is left alone. With a payload, a successful flush names the file by `suggestName`, places the new file, replaces the old file, and takes size and type from the new file. Without one, a changed path or protection moves the stored file. Every failure is one of the file exceptions or a refused check, and paths stay in agreement. With a payload, a refused read check throws `PermissionDeniedException` and leaves the disk alone; when both checks pass, the flush succeeds exactly when the disk steps can (`Placeable` at the new name) |
| FileSync.FlushPayload | src/Files/File.php:106-167 | on success only the file has changed, and it is stored as `Stored` describes. With both checks passing it succeeds exactly when the old file can be unlinked and the new one placed (`Placeable`); a refused read check throws `PermissionDeniedException` and leaves the disk alone |
| FileSync.NameFile | src/Files/File.php:107-116 | on success the file's name is the one `suggestName` chose for the proposed basename on the current disk, and its content is untouched; a passing write check always succeeds |
| FileSync.StoreFile | src/Files/File.php:118-167 | on success the new file is in place, the replaced one is gone, and the size and type are taken from the file's path. It succeeds exactly when the read check passes and the disk steps can (`Placeable`); a refused read check throws `PermissionDeniedException` with the disk untouched, and a failure changes only the read cache |
| FileSync.PlaceFile | src/Files/File.php:118-161 | succeeds exactly when `Placeable` holds: the replaced old file is an unlocked file, and then the upload's target is unlocked and no directory, or the copy's source is a file and its target free and unlocked. A missing old file throws `RemoveFileException` (missing), a locked one `RemoveFileException` (present); a failed move `UploadFileException`; a missing copy source, an occupied target or a refused copy each its `RenameFileException`. A failure leaves the disk as after the unlink, or untouched if the unlink failed |
| FileSync.Rename | src/Files/File.php:110 | on success only the file has changed, and it carries the new name and the path regenerated from it; a passing write check always succeeds |
| FileSync.FlushMove | src/Files/File.php:170-198 | with nothing to move nothing happens. Otherwise the stored file moves from its remembered location to the current one, behind the check, `rename`, check sequence. Each failed guard gives its own `RenameFileException` |
| FileSync.MoveFile | src/Files/File.php:181-197 | the move goes ahead exactly when the old location holds a file, nothing lies at the new one and neither is locked |
| FileSync.PreRemove | src/Files/File.php:206-224 | the first call marks the file removed; a later call changes nothing. Behind the read check the removal succeeds exactly when a file that may be removed is there; the disk then lacks it, and otherwise nothing changes on disk |
| FileEntitySync.PreUpload | src/Files/FileEntity.php:94-135 | with a payload, a successful call names the file by `suggestName` and places the payload without checks, then takes size and type from the file path. Without one, a changed path or protection (a missing old path equals the empty path, a missing flag equals `false`) renames the stored file when something lies at the old location. Failures are a refused check or the `move` exception |
| FileEntitySync.UploadPayload | src/Files/FileEntity.php:95-121 | on success only the file has changed, and it is stored as `Stored` describes |
| FileEntitySync.StoredOfParts | src/Files/FileEntity.php:95-121 | naming, then placing, then taking size and type amount to a stored file |
| FileEntitySync.StoreFile | src/Files/FileEntity.php:109-121 | on success the payload is placed and the size and type are taken from the file path |
| FileEntitySync.PlaceFile | src/Files/FileEntity.php:109-117 | the old file is unlinked when possible. An upload lands at the file path unless `move` throws, and a copy may silently do nothing |
| FileEntitySync.UploadMove | src/Files/FileEntity.php:124-134 | with nothing to move (paths compared exactly, except that a missing old path equals the empty path) nothing happens. Otherwise, behind the read check, an existing old file is renamed to the new path and no guard fails |
| FileEntitySync.PreRemove | src/Files/FileEntity.php:142-153 | there is no guard against a second call. Behind the read check the file is unlinked without a check; when the cache directory exists, every cached copy named after the file is purged. A refused read throws with the disk untouched |
| FileEntitySync.PurgeNamed | src/Files/FileEntity.php:146-152 | the name answered from the read cache selects the cached copies, and only the disk changes |
| FileEntitySync.SetFile | src/Files/FileEntity.php:198-216 | like `File::setFile`, except that the current path is remembered whenever no old path is and the path is truthy |
| Media.ProcessFile | src/Files/Macros/MediaMacro.php:84-87 | the URL of a stored file is the media root followed by the file's path |
| Media.ProcessImage | src/Files/Macros/MediaMacro.php:94-112 | it fails with a `CompileException` exactly when the extension or an explicit type is off the whitelist. A URL it prints lies below the media root, and on the fast path it is the stored file's URL. An explicit type "jpg" is always refused, since only "jpeg" is listed |
| Media.UpperCaseJpgIsJpeg | src/Files/Macros/MediaMacro.php:101 | an upper-case ".JPG" extension is read as "jpeg" |
| Media.UpperCaseJpgLinkedDirectly | src/Files/Macros/MediaMacro.php:94-112 | with default arguments such an image is linked directly, not through the cache |
| Media.SplitSegmentOf | src/Files/DI/FilesExtension.php:106-107 | a route parameter followed by '/' is split off whole |
| Media.CachedUrlRoutes | src/Files/DI/FilesExtension.php:105-117 | the URL of a resized copy is routed to the image action with its own size, format, type and path |
| Media.FileUrlRoutes | src/Files/DI/FilesExtension.php:118-129 | a stored file's URL is routed to the default action with its path, unless the path itself starts with "_cache/" |
| Media.MacroUrlRoutesBack | src/Files/Macros/MediaMacro.php:94-112 | every URL the macro prints is routed back to the presenter with the macro's own parameters: a fast-path URL to the default action, any other to the image action |
| Presenter.Stripped | src/Files/AdminModule/FilePresenter.php:95-98 | a leading "_cache/" is removed, and any other URL is kept |
| Presenter.ResizeOf | src/Files/AdminModule/FilePresenter.php:108-116 | a resize happens exactly for a truthy size other than "default" that contains an 'x'. Format "default" means `Image::FIT`, and any other format is passed on |
| Presenter.ResizeOfDimensions | src/Files/AdminModule/FilePresenter.php:111-114 | "WxH" is read back as width W and height H, and '?' leaves a side open |
| Presenter.ResizeOfOpenHeight | src/Files/AdminModule/FilePresenter.php:111-114 | "100x?" resizes to width 100 with an open height |
| Presenter.DerivedType | src/Files/AdminModule/FilePresenter.php:118-120 | the type taken from the name is the name from its last dot on, dot included, or the whole name without a dot |
| Presenter.DerivedTypeIsPng | src/Files/AdminModule/FilePresenter.php:118-122 | a type taken from a dotted name keeps its dot, so such a copy is always a PNG |
| Presenter.ImageKindAsWritten | src/Files/AdminModule/FilePresenter.php:122 | as written, the unparenthesised ternary never chooses JPEG |
| Presenter.JpgSavedAsGif | src/Files/AdminModule/FilePresenter.php:122 | as written, a copy requested as "jpg" is saved and sent as a GIF |
| Presenter.ImageKind | src/Files/AdminModule/FilePresenter.php:122 | corrected: JPEG exactly for "jpg", GIF exactly for "gif", and PNG otherwise |
| Presenter.CachedCopyIsPurged | src/Files/AdminModule/FilePresenter.php:124-132 | the path a copy is saved at is one the cache cleaner purges for the entity whose name it ends in |
| Presenter.TargetBelowCache | src/Files/AdminModule/FilePresenter.php:124-132 | the saved copy lies below the cache directory, and what follows is the three parameters and the entity's path |
| Presenter.RelativeSegments | src/Files/AdminModule/FilePresenter.php:124-132 | below the cache directory the saved path explodes into the three parameters, then the parts of the entity's path |
| Presenter.PathEndsInName | src/Files/BaseFile.php:363 | a generated path ends in the entity's own name |
| Presenter.FilePresenter.constructor | src/Files/AdminModule/FilePresenter.php:54-70 | the cache directory and the route's four parameters are stored, and nothing is marked cached yet |
| Presenter.FilePresenter.ActionDefault | src/Files/AdminModule/FilePresenter.php:72-91 | an unknown path is a bad request. A file the user may not read is a forbidden request, and otherwise the file path is served |
| Presenter.FilePresenter.ActionImage | src/Files/AdminModule/FilePresenter.php:93-138 | a "_cache/" prefix is stripped and remembered, and an unknown path is a bad request. A refused read escapes. Otherwise the job loads the file path, resizes as the size and format ask, and saves the copy below the cache directory with the type `ImageKind` chooses (the corrected choice, see the findings); an empty type is taken from the name |
| Presenter.ImageOf | src/Files/AdminModule/FilePresenter.php:104-132 | behind one read check, the job is built from the entity's file path, name and path, and only the read cache changes |
| Presenter.CheckedAgain | src/Files/BaseFile.php:481 | a read check already answered changes nothing |
| FilesControls.DirKeyRoundTrip | src/Files/SideComponents/FilesControl.php:108-122 | the key `d:<id>` of a directory leads back to it: expanding it records session id `id`, loading it lists the directory `id` |
| FilesControls.ClickTarget | src/Files/SideComponents/FilesControl.php:91-98 | a click forwards exactly when the key starts with `d:`, and then forwards the key's tail |
| FilesControls.ClickTargets | src/Files/SideComponents/FilesControl.php:91-98 | a click on a directory key forwards its id; a click on a file key forwards nothing |
| FilesControls.View | src/Files/SideComponents/FilesControl.php:135-163 | the rows the listing reads cover exactly the entities of the store |
| FilesControls.RowLinks | src/Files/SideComponents/FilesControl.php:128-131 | the parent pointers the queries filter on are those of the rows |
| FilesControls.ViewLinks | src/Files/SideComponents/FilesControl.php:128-131 | the rows carry the same parent pointers as the store |
| FilesControls.CachedAtTrans | src/Files/SideComponents/FilesControl.php:136 | answering a read check twice still leaves the entity as it was or with that answer cached, and the answer does not change |
| FilesControls.CachedView | src/Files/SideComponents/FilesControl.php:135-163 | caching read checks changes neither the rows the listing sees nor the forest, and keeps every entity's id |
| FilesControls.CachedRows | src/Files/SideComponents/FilesControl.php:136 | caching read checks leaves every row as it was |
| FilesControls.CachedLinks | src/Files/SideComponents/FilesControl.php:136 | caching read checks leaves every parent pointer as it was |
| FilesControls.CachedIds | src/Files/SideComponents/FilesControl.php:136 | caching read checks leaves every entity's database id as it was |
| FilesControls.CachedTrans | src/Files/SideComponents/FilesControl.php:135-163 | read checks cached over two stretches of the listing are read checks cached over the whole of it |
| FilesControls.CachedOne | src/Files/SideComponents/FilesControl.php:136 | one read check on one entity only caches its answer |
| FilesControls.Select | src/Files/SideComponents/FilesControl.php:126-135 | the query returns exactly the entities of the ordering that are of the asked kind, visible and below the asked parent, and only those |
| FilesControls.LeavesShape | src/Files/SideComponents/FilesControl.php:161-164 | the file part holds one leaf per file, titled by its name and keyed `f:<id>`; it fails only with a refused read, only when some file is unreadable, and never when all are readable |
| FilesControls.FoldersShape | src/Files/SideComponents/FilesControl.php:135-150 | the directory part holds one folder per directory, in order, titled and keyed `d:<id>`, lazy iff it has a child, expanded iff its session state is set |
| FilesControls.FolderOfShape | src/Files/SideComponents/FilesControl.php:136-147 | one directory's item is titled and keyed after it, lazy iff it has any child, and carries children iff its session state is set |
| FilesControls.ListingErrors | src/Files/SideComponents/FilesControl.php:118-167 | the listing can only fail with a refused read |
| FilesControls.ListingShape | src/Files/SideComponents/FilesControl.php:118-167 | the answer is the shown directories, then the shown files, each in the query's order, shaped as the two loops build them; with every entity readable it never fails |
| FilesControls.ThenParts | src/Files/SideComponents/FilesControl.php:135-166 | directories then files: a failure of either part is the failure of the whole, else the concatenation |
| FilesControls.ListingSucceeds | src/Files/SideComponents/FilesControl.php:118-167 | when every entity may be read, the listing of any directory succeeds |
| FilesControls.FoldersSucceed | src/Files/SideComponents/FilesControl.php:135-150 | when every entity may be read, the directory part succeeds |
| FilesControls.FoldersAt | src/Files/SideComponents/FilesControl.php:135-150 | the directory part from the `i`-th directory on is that directory's item followed by the rest |
| FilesControls.BuildingStart | src/Files/SideComponents/FilesControl.php:124 | the directory loop starts from an empty list that accounts for the whole directory part |
| FilesControls.BuildingDone | src/Files/SideComponents/FilesControl.php:150 | when the directory loop ends, what it built is the directory part |
| FilesControls.BuildingStep | src/Files/SideComponents/FilesControl.php:135-150 | one turn of the directory loop: a failing item is the failure of the whole part, a good one is appended |
| FilesControls.LeavesAt | src/Files/SideComponents/FilesControl.php:161-164 | the file part from the `i`-th file on is that file's leaf followed by the rest |
| FilesControls.GatheringStart | src/Files/SideComponents/FilesControl.php:161 | the file loop starts from an empty list that accounts for the whole file part |
| FilesControls.GatheringDone | src/Files/SideComponents/FilesControl.php:164 | when the file loop ends, what it built is the file part |
| FilesControls.GatheringStep | src/Files/SideComponents/FilesControl.php:161-164 | one turn of the file loop: a refused name fails the part, a readable one appends its leaf |
| FilesControls.KeyOfRoundTrip | src/Files/SideComponents/FilesControl.php:176-183 | the repository letter and the id of a key name the entity it was made from |
| FilesControls.DropIntoChildMakesCycle | src/Files/SideComponents/FilesControl.php:185-189 | the drop as written, of a directory into its own child, makes each the other's parent, so no ranking of the result exists |
| FilesControls.GetCached | src/Files/SideComponents/FilesControl.php:136 | reading a directory's name behind its read check only caches the answer, and gives the name the listing shows |
| FilesControls.AnyChild | src/Files/SideComponents/FilesControl.php:140 | `count(children) > 0 \|\| count(files) > 0` holds iff some entity has the directory as parent |
| FilesControls.MeasureDrops | src/Files/SideComponents/FilesControl.php:146 | the recursive call for a shown child directory is at a lower rank than the directory it is listed under, so the listing ends |
| FilesControls.SameShape | src/Files/SideComponents/FilesControl.php:185-189 | states with the same parent pointers agree on whether a drop would close a loop |
| FilesControls.ReadyNow | src/Files/SideComponents/FilesControl.php:118-167 | during the listing the store stays sound, persisted and shows the rows it had when the listing began |
| FilesControls.ReadyTrans | src/Files/SideComponents/FilesControl.php:146 | what holds of the store after a nested listing relative to its start also holds relative to the outer listing's start |
| FilesControls.ExpansionOf | src/Files/SideComponents/FilesControl.php:144-147 | an expanded directory's children are its own listing, or that listing's failure |
| FilesControls.FolderOfIs | src/Files/SideComponents/FilesControl.php:136-149 | a directory's item is assembled from its checked name, its laziness and its expansion |
| FilesControls.StillExpanded | src/Files/SideComponents/FilesControl.php:122 | marking an already expanded directory as expanded leaves the session unchanged |
| FilesControls.FilesControl.constructor | src/Files/SideComponents/FilesControl.php:65-72 | the control starts from the session's state array |
| FilesControls.FilesControl.GetState | src/Files/SideComponents/FilesControl.php:78-81 | false for an id never set, else the value last stored |
| FilesControls.FilesControl.SetState | src/Files/SideComponents/FilesControl.php:65-72 | the session's entry for the id becomes the given value and nothing else changes; setting an expanded directory to expanded changes nothing |
| FilesControls.FilesControl.FileExpand | src/Files/SideComponents/FilesControl.php:108-112 | the state of the id named by the key's tail (0 for an empty key) becomes the given value |
| FilesControls.FilesControl.GetFiles | src/Files/SideComponents/FilesControl.php:118-167 | marks the listed directory expanded, leaves the store sound with only read checks cached, and answers exactly the listing of that directory |
| FilesControls.FilesControl.ListUnder | src/Files/SideComponents/FilesControl.php:124-166 | the two queries and loops under a directory answer exactly its listing and do not touch the session |
| FilesControls.FilesControl.ListParts | src/Files/SideComponents/FilesControl.php:135-166 | the directory loop, then, unless it failed, the file loop, answer directories then files |
| FilesControls.FilesControl.ListFolders | src/Files/SideComponents/FilesControl.php:135-150 | the directory loop answers exactly the directory part of the listing |
| FilesControls.FilesControl.FolderStep | src/Files/SideComponents/FilesControl.php:135-150 | one turn of the directory loop keeps the loop's account of what it built or ends it with the part's failure |
| FilesControls.FilesControl.FolderItem | src/Files/SideComponents/FilesControl.php:136-147 | builds exactly the item of one directory |
| FilesControls.FilesControl.FolderBody | src/Files/SideComponents/FilesControl.php:138-147 | completes a directory's item after its name was read; a refused name is the item's failure |
| FilesControls.FilesControl.OpenFolder | src/Files/SideComponents/FilesControl.php:140-147 | a readable directory's item is lazy iff it has a child and holds its listing iff its state is set |
| FilesControls.FilesControl.Lazy | src/Files/SideComponents/FilesControl.php:140 | true iff some entity has the directory as parent |
| FilesControls.FilesControl.Expanded | src/Files/SideComponents/FilesControl.php:144-147 | no children for a directory whose state is not set, else its own listing |
| FilesControls.FilesControl.NameOf | src/Files/SideComponents/FilesControl.php:136 | the name when the read check passes, else a refused read |
| FilesControls.FilesControl.ListLeaves | src/Files/SideComponents/FilesControl.php:161-164 | the file loop answers exactly the file part of the listing |
| FilesControls.FilesControl.LeafStep | src/Files/SideComponents/FilesControl.php:161-164 | one turn of the file loop appends the file's leaf or fails the part with a refused read |
| FilesControls.FilesControl.SetFileParent | src/Files/SideComponents/FilesControl.php:174-192 | corrected drop: a missing entity is not found; the destination is the target's parent for `before`/`after` (behind its read check) and the target itself otherwise (a file target refused); a drop into the entity's own subtree is refused and changes no pointer; otherwise the entity's parent becomes the destination when it may be written, the forest stays sound and paths stay consistent. Such a drop succeeds for a writable file and for an entity whose subtree passes every write check |
| FilesControls.FilesControl.Move | src/Files/SideComponents/FilesControl.php:186-191 | a move closing a loop is refused and changes nothing; a move to the current parent changes nothing; an entity that may not be written keeps its parent; otherwise only its parent pointer changes, to the destination. A move that closes no loop succeeds for a writable file and for an entity whose subtree passes every write check |
| FilesControls.FilesControl.Resolve | src/Files/SideComponents/FilesControl.php:183-189 | the destination of the drop, as above; only read checks are cached, so the forest and the write rights stay as they were |
| FilesControls.FilesControl.Encloses | src/Files/SideComponents/FilesControl.php:185-189 | true iff the entity lies in the subtree of the moved one |
| FileBrowsers.FindDir | src/Files/FileBrowser/FileBrowserControl.php:478 | a directory found by id is a directory of the store |
| FileBrowsers.FindFile | src/Files/FileBrowser/FileBrowserControl.php:484 | a file found by id is a file of the store |
| FileBrowsers.Climb | src/Files/FileBrowser/FileBrowserControl.php:168-188 | the walk up from the current directory can only fail with a refused read |
| FileBrowsers.ClimbWithin | src/Files/FileBrowser/FileBrowserControl.php:166-189 | on persisted entities the walk answers true iff the directory lies in the root's subtree (the root included); it fails only with a refused read, and never when every entity passed on the way may be read |
| FileBrowsers.Saved | src/Files/FileBrowser/FileBrowserControl.php:491-502 | `dirId` and `fileId` are written with the ids of the current directory and file when those are set, and every other parameter, or an id whose field is unset, is kept |
| FileBrowsers.SaveThenLoad | src/Files/FileBrowser/FileBrowserControl.php:475-502 | saving the state and loading it on a request without its own ids restores the file and the directory; with neither, the root is taken, or else the directory the control already had |
| FileBrowsers.FileIdOverridesDir | src/Files/FileBrowser/FileBrowserControl.php:483-486 | a readable file named by `fileId` decides both the file and the directory (its parent), whatever `dirId` says |
| FileBrowsers.UpLeadsToParent | src/Files/FileBrowser/FileBrowserControl.php:363-383 | after "Up" with no file open, the next request shows the parent directory (the root, or the top level, above a top-level directory); with a file open it shows the same directory and no file |
| FileBrowsers.UpFromRootLeavesRoot | src/Files/FileBrowser/FileBrowserControl.php:154-189 | "Up" from a root that has a parent leaves the root's subtree, so the next request's `checkCurrentDir` does not succeed and `attached` throws |
| FileBrowsers.FlashOf | src/Files/FileBrowser/FileBrowserControl.php:226-230 | a DBAL exception mentioning a duplicate entry is flashed as a translated warning; every other error shows its own message at the default level |
| FileBrowsers.FlashesOf | src/Files/FileBrowser/FileBrowserControl.php:224-231 | one message per recorded error, in order |
| FileBrowsers.DuplicateEntryIsWarning | src/Files/FileBrowser/FileBrowserControl.php:226-227 | a duplicate entry anywhere in a DBAL exception's message gives the warning |
| FileBrowsers.OtherClassIsPlain | src/Files/FileBrowser/FileBrowserControl.php:228-229 | the same message from any other exception class is flashed unchanged |
| FileBrowsers.BrowserUploadsRecordNothing | src/Files/FileBrowser/FileBrowserControl.php:211-212 | for any `onFileUpload` handler, with `fileUploadUnlink` after it the uploader records no error, so the duplicate-entry warning is never reached after an upload. When `onFileUpload` returns on every file, as `fileUpload` does for a signed-in user, both handlers run on every file and nothing escapes |
| FileBrowsers.NoAfterFailures | src/Files/FileBrowser/FileBrowserControl.php:262-266 | `fileUploadUnlink` never throws, so no error is recorded after any file |
| FileBrowsers.NothingBelowFresh | src/Files/FileBrowser/FileBrowserControl.php:247-248 | no entity lies below one that nothing points to |
| FileBrowsers.FileBrowserControl.constructor | src/Files/FileBrowser/FileBrowserControl.php:122-125 | a fresh control has no directory, no file, no root and no messages |
| FileBrowsers.FileBrowserControl.SetRoot | src/Files/FileBrowser/FileBrowserControl.php:122-125 | the root becomes the given directory, or none |
| FileBrowsers.FileBrowserControl.CheckCurrentDir | src/Files/FileBrowser/FileBrowserControl.php:166-189 | answers exactly the walk's result and changes the store only by cached read checks |
| FileBrowsers.FileBrowserControl.CheckUp | src/Files/FileBrowser/FileBrowserControl.php:177 | one step up: the read check's answer, cached, with the parent pointer unchanged |
| FileBrowsers.FileBrowserControl.Attached | src/Files/FileBrowser/FileBrowserControl.php:154-161 | passes exactly when the current directory lies in the root's subtree, fails with a bad request exactly when it lies outside, and otherwise passes the walk's refused read on |
| FileBrowsers.FileBrowserControl.LoadState | src/Files/FileBrowser/FileBrowserControl.php:475-489 | the directory, the file and the outcome are exactly those the loading rules give for the parameters |
| FileBrowsers.FileBrowserControl.SaveState | src/Files/FileBrowser/FileBrowserControl.php:491-502 | the parameters as the saving rules give them for the current directory and file |
| FileBrowsers.FileBrowserControl.Up | src/Files/FileBrowser/FileBrowserControl.php:363-383 | the redirect's arguments (the parent's id with no file open, no file otherwise); the control is left as it was, because the redirect throws first |
| FileBrowsers.FileBrowserControl.OnUploadError | src/Files/FileBrowser/FileBrowserControl.php:224-235 | appends one message per recorded error, in order, and leaves the list of errors set |
| FileBrowsers.FileBrowserControl.FileUpload | src/Files/FileBrowser/FileBrowserControl.php:244-256 | a new file is created; only a guest, whose missing identity no catch stops, makes the call fail; when nothing was logged the file sits in the current directory, holds the file the uploader left, is authored by the user when the user exists, and the flush passed. Conversely, a signed-in user's upload logs exactly the flush's error: nothing when the flush passes, because a new file without an author passes every write check |
| FileBrowsers.Authored | src/Files/FileBrowser/FileBrowserControl.php:250 | the author is the signed-in user when found, and a guest makes the call fail; for a signed-in user, an entity whose write check passes logs nothing |
| FileBrowsers.FileUploadUnlink | src/Files/FileBrowser/FileBrowserControl.php:262-266 | both copies the uploader left, the file and its thumbnail, are unlinked where the disk allows it |
| FileBrowsers.FreshIsLeaf | src/Files/FileBrowser/FileBrowserControl.php:247-248 | a new entity has nothing below it, so giving it any parent closes no loop |
| FileBrowsers.NoChildOfFresh | src/Files/FileBrowser/FileBrowserControl.php:247 | before an entity exists, no entity points to it |
| FileBrowsers.FlashesSnoc | src/Files/FileBrowser/FileBrowserControl.php:225-231 | one more recorded error adds its message at the end |

## Left out

- Doctrine's unit of work is not modelled. There is no `persist` queue, no `flush` ordering of lifecycle events and no proxies. Each lifecycle callback (`preFlush`, `preRemove`, `postPersist`, `postUpdate`, `preUpdate`, `prePersist`, `postLoad`) is a method the caller invokes on the store. A `flush` whose outcome matters (in `fileUpload`) is a parameter.
- A repository `find` is a lookup of the key with the same number, and each entity's database id is its key number.
- A query's `orderBy('a.name')` is the sequence `order` the caller supplies, so collation is not modelled.
- Object identity is value equality of keys. An entity loaded twice is one record.
- The `created` and `updated` timestamps are a counter that setters bump. `DateTime` is not modelled, and neither are `getCreated` or `getUpdated`.
- Plain getters behind the read check (`getName`, `getPath`, `getParent` and the rest) are the one member `Entities.Store.Get`. The trivial getters with no check (`getId`, `getRoot`, `getBrowserMode`, `getAjaxDir`, `getAjaxPath`) are field reads, and they have no member of their own.
- PHP's loose comparison is modelled for three cases: `null` against `""` and `null` against `false` in `FileEntity`'s `!=` on paths and flags, and a suffix made only of digits against its `intval` in `suggestName`. Numeric strings of any other form are not modelled; the three lines below name what that leaves out. Every other comparison is exact string equality.
- A PHP notice or fatal error is not modelled as such. Each place where the code reaches one is given an Error value or a `null` result instead:
  - a property read on `null` reads `null`, as in the "Up" handler without a directory;
  - `fileUpload` asks a guest, who has no identity, for an id. That call on `null` cannot be caught, and it is `NotFound` (`FileBrowsers.Authored`);
  - a read check on a protected entry that has no user is refused, where PHP would call `isInRole` on `null`;
  - `loadState` with a `fileId` that finds no file calls `getParent()` on `null` (FileBrowserControl.php:484-485), and it is `NotFound` (`FileBrowsers.Loaded`, `FileBrowsers.FileBrowserControl.LoadState`);
  - a `before`/`after` drop onto a missing target reads `$target->parent` on `null` (FilesControl.php:185-186). That reads as `null`, so the entity moves to the top level (`FilesControls.Destination`);
  - a drop into a file passes a `File` where `setParent` declares `Dir` (BaseFile.php:197). That type error is `WrongType` (`FilesControls.Destination`);
  - a missing source entity in `setFileParent` is `NotFound` (see below).
- `Strings::webalize`, `filesize`, the MIME-type probe and the translator are uninterpreted function parameters, because they are foreign code. Alphabets, Unicode and encodings are out of scope: strings are sequences of characters.
- `Nette\Utils\Finder` matching for the cache purge is written as a predicate: a path below `publicDir/_cache` with at least four `/`-separated segments whose last one is the entity's name. The glob library's own corner cases are not modelled.
- `mkdir` with the recursive flag (`DirEntity::preUpdate`, `FilePresenter::actionImage` line 135) creates only the named directory. Missing parents are not created, and whether the parent exists is not checked.
- Image loading, resizing, saving and sending (`Nette\Utils\Image`) are left out, because they are image processing in a foreign library. The image presenter's model stops at `Presenter.ImageJob`, which records the source, the resize, the type and the target path.
- `FileResponse` and `sendResponse` are left out because they are HTTP output. This covers `handleDownload` and the end of `actionDefault`.
- The `redirect` and `forward` calls of a control end the request by throwing `AbortException`. They are modelled only as the arguments the call receives, plus the fact that no statement after them runs.
- Nette parameter and link merging is the map union `saved + args`.
- Session storage is a field of the control (`FilesControl.state`, `AjaxFileUploader.errors`). Session expiry and namespaces are not modelled.
- The blueimp `UploadHandler` is left out, together with the `mkdir` of the AJAX directory, because it parses HTTP, writes JSON and saves temporary files. The uploader's loop takes the names of the files the library accepted. The two handlers are functions from a name to an outcome.
- `setBrowserMode` and `setSideComponent` are left out: they only store a flag or a component that rendering uses.
- What the controls render is left out, because it is UI and templates: `render`, `redrawControl`, `redrawContent`, every `createComponent*` except the handlers it installs, the grids and toolbars, and the flash templates.
- `handleOpenDir`, `handleOpenFile` and `handleDownload` of the browser are left out: they only redirect or send a response.
- `MediaMacro::install`, `macroFile`, `macroImage` and `setEntityManager` are left out, because they are Latte code generation and wiring. The URL builders `proccessFile` and `proccessImage` that the generated code calls are modelled.
- A directory's `children` and `files` collections are taken to be exactly the entities whose `parent` names it (`Entities.Store.Children`). Doctrine does not update the inverse side of the relation when `setParent` runs (Dir.php:33-42, 153-180), so within one request PHP's collections can lag behind the model's.
- Concurrency is left out. Two requests renaming or moving the same path have no locking in the source, and the model is sequential.
- The temporary file of an upload (`FileUpload::move`) is reduced to the disk entries it creates. Its sanitized name is a parameter.
- Entities.Store.SetParent: requires that the new parent lie outside the moved entity's subtree, which the source does not check. `BaseFile::setParent` would accept such a parent and build a cycle. The cycle is modelled and exhibited in `FilesControls.DropAsWritten` and `FilesControls.DropIntoChildMakesCycle`, and `FilesControls.FilesControl.SetFileParent` refuses such a drop (see the findings).
- Presenter.FilePresenter.ActionImage: chooses the saved type with the corrected `Presenter.ImageKind`. As written (FilePresenter.php:122), the type "jpg" is saved as GIF; `Presenter.ImageKindAsWritten` and `Presenter.JpgSavedAsGif` model that (see the findings).
- Presenter.ImageOf: builds the job with the corrected `Presenter.ImageKind`, as `Presenter.FilePresenter.ActionImage` does, and not with the as-written `Presenter.ImageKindAsWritten`.
- Php.IntVal: reads only leading decimal digits. PHP's `intval` also skips leading whitespace and takes a sign, so `intval(" 5")` and `intval("+5")` are 5 in PHP and 0 here. From PHP 7.1 on it also reads an exponent, so `intval("1e1")` is 10 in PHP and 1 here. In `suggestName` the suffix comes from the caller's sanitized basename on the first call, so it can take these forms. Every such suffix fails the counter test in the model; `Naming.SuggestName` below says what that changes. The ids that `FilesControl` reads after a one-letter prefix are written by `(string)` of an integer, which needs none of these forms.
- Naming.SuggestName: the counter test `(string) $i == $last` (File.php:82, FileEntity.php:74-75) is modelled only for a suffix made entirely of digits (`Php.LooseEqualsDecimal`). PHP compares two numeric strings as numbers, so a suffix such as "1.0", "5.00" or, from PHP 7.1 on, "1e1" also counts as a counter when its value equals its `intval`. Example: with "manual-1.0.pdf" taken and "manual-2.pdf" free, PHP returns "manual-2.pdf". The model does not treat "1.0" as a counter, so it retries with "-1" and returns "manual-1.0-1.pdf".
- FileEntitySync.PreUpload: the payload-less move compares the old path with the current one through `FileEntitySync.PathDiffers`, which models PHP's loose `!=` (FileEntity.php:127) only for `null` against `""`. Two distinct numeric paths with the same value, such as "010" and "10" or "1.0" and "1", are equal in PHP, so PHP does not move the file; the model moves it.
- FileEntitySync.UploadMove: decides through `MustMove` and `PathDiffers` whether to move, so it carries the same gap as `FileEntitySync.PreUpload`: numeric paths that PHP's loose `!=` equates count as different, and the model renames the file where PHP does not.
- Storage.CanRename: a directory may replace an empty directory and a file may replace a file, as POSIX `rename` allows. `rename` across filesystems, which PHP carries out as a copy, is not modelled.
- DirSync.RenameDirChecked: the corrected guard refuses a target that is already a directory, mirroring the `is_file` guard on the target in `Dir::rename` (Dir.php:249-268). The unchecked renames of `DirEntity::preUpdate` (DirEntity.php:98-103) go through `Storage.Renamed` directly, and there an empty directory at the target is replaced.
- Php.Basename: does not strip a trailing `/` first, as PHP's `basename("a/b/") == "b"` does. The call site in the model (File.php:113) takes the basename of the path of a file to copy, which names a file and does not end in `/`.
- DirSync.PreRemove: `Sweepable` is a sufficient condition for success, not a necessary one. For instance, a removal in which one of a directory's two directories lies inside the other can succeed, but it is not `Sweepable`.
- FilesControls.FilesControl.SetFileParent: a missing source entity is reported as `NotFound`, where PHP would fail calling `setParent` on `null`.

## Findings

| source | as written | input that shows it | evidently intended | confidence | as-written member | corrected member |
|---|---|---|---|---|---|---|
| src/Files/Dir.php:249-268 | `rename` checks `is_file` on both ends, but `postUpdate` calls it on directories, so the guard throws before anything is renamed | a directory `/p/a` on disk, renamed to `/p/b`: `is_file('/p/a')` is false, so `RenameDirectoryException` is thrown | the guards test `is_dir`, so a renamed directory is moved in both roots | high (not executed) | DirSync.PostUpdate, DirSync.PostUpdateRefusesDirectory | DirSync.RenameDirChecked, DirSync.PostUpdateCorrected |
| src/Files/AdminModule/FilePresenter.php:122 | the unparenthesised nested ternary is left-associative: `($t === 'jpg' ? JPEG : $t === 'gif') ? GIF : PNG` | type `jpg`: the inner ternary yields the truthy `JPEG`, so the image is saved and sent as GIF | `jpg` gives JPEG, `gif` gives GIF, anything else PNG | high (not executed) | Presenter.ImageKindAsWritten, Presenter.JpgSavedAsGif | Presenter.ImageKind |
| src/Files/SideComponents/FilesControl.php:174-192 | a drop makes the target (or its parent) the entity's parent with no check that the target lies outside the entity's subtree | directory 1 at the top level with child directory 2; drop `d:1` onto `d:2` with mode `over`: 1 and 2 become each other's parent | a drop into the entity's own subtree is refused | medium: the tree widget may refuse such a drop in the browser (not executed) | FilesControls.DropAsWritten, FilesControls.DropIntoChildMakesCycle | FilesControls.FilesControl.SetFileParent |
