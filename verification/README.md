# Portfolio admin editors and content server, modelled in Dafny

The portfolio site has a public React front end, an admin area, and a small Express server. The admin area has one editor per content section: hero, about, skills, projects, education, connect. The server stores all sections in one JSON document. It also stores uploaded images and checks the admin password.

This project models three parts of that system as pure functions over immutable values and proves their contracts:

- **The list editing algebra.** Every admin editor applies it to its list sections. A record has an integer `id` and a display position `order`. Adding gives the new record `max(0, ids) + 1` as its id and the old length as its `order`. Removing filters out one position and renumbers. Moving swaps two neighbours and renumbers; a target outside the list is a no-op. Updating replaces one field of one record.
  - The projects editor adds three things: the "at most one featured" toggle, a trimmed duplicate-free tag list fed by comma-separated input, and image paths with the leading `/` stripped.
  - The skills editor shows a category view and maps each row back to the full list by id.
  - The education editor keeps certificates inside groups. Certificate ids come from one pool shared by all groups.
- **The public projects page.** It normalises image paths, shows the projects in ascending `order`, shows the first featured project on its own, and lists the non-featured projects after it.
- **The server routes.**
  - Section read and replace on the content document.
  - The stored-file naming rule, the upload filter, and the single, multiple and delete upload routes.
  - Login and token verification.

The clock, the uploads directory, the data file, and JWT signing and checking are parameters. The directory is a set of file names. The data file is either a parsed document or an unreadable file. `sign` and `check` are functions the caller supplies.

Modules, leaves first:

- `Seqs`: `Option`, `Without` (JavaScript's `filter((_, i) => i !== index)`), `MaxOrZero`, `Filter`, `NoDuplicates`.
- `Text`: the string built-ins the code relies on. These are `trim` with JavaScript's whitespace set, `startsWith`, substring search, `split`/`join`, `replace(/\s+/g, '-')`, ASCII `toLowerCase`, and decimal rendering of a timestamp.
- `OrderedList`: `Item<T>(id, order, body)` and the shared operations `Add`, `Remove`, `Move`, `SetBody`, `Renumber` and `FindIndex`.
- `OrderSort`: the sort by `order`. It is a stable insertion sort. It is specified as sorted, a permutation of its input, and the identity on a sorted list.
- `ProjectsEditor`, `ProjectsView`, `SkillsEditor`, `EducationEditor`, `AboutEditor`, `ConnectEditor`, `HeroEditor`: one module per editor or page.
- `Http`: JSON values and responses.
- `ContentStore`, `Uploads`, `Auth`: the server routes.

A file the upload filter rejects gets 500, not 400. The server installs no error-handling middleware, so the filter's error reaches the framework's default handler. That handler answers 500 with a page that is not JSON. `Uploads.UploadOne` and `Uploads.UploadMany` model that answer as `Http.ServerError`. A token signing failure (no secret configured) is answered the same way.

## Model

| member | source | states |
|---|---|---|
| OrderedList.MaxId | src/admin/sections/ProjectsEditor.jsx:24 | `max(0, ids)`: never below 0, at least every id, and either 0 or the id of some record |
| OrderedList.FreshId | src/admin/sections/ProjectsEditor.jsx:24 | `max(0, ids) + 1`: above every id in the list, and either 1 or one more than the id of some record |
| OrderedList.Add | src/admin/sections/ProjectsEditor.jsx:23-27 | the old list is kept as a prefix; the new record has an id above every existing id and `order` equal to the old length; unique ids and a 0..n-1 numbering are preserved |
| OrderedList.Renumber | src/admin/sections/ProjectsEditor.jsx:37 | every `order` becomes its position while ids and fields stay in place |
| OrderedList.RenumberNumbered | src/admin/sections/ProjectsEditor.jsx:37 | renumbering a list already numbered 0..n-1 changes nothing |
| OrderedList.Remove | src/admin/sections/ProjectsEditor.jsx:36-39 | an in-range removal shortens the list by one, keeps the survivors in their relative order and numbers them 0..n-2; the removed id is exactly what leaves the id multiset; an out-of-range index only renumbers; unique ids stay unique |
| OrderedList.Move | src/admin/sections/ProjectsEditor.jsx:41-47 | a target outside the list leaves it unchanged; otherwise the two records trade places, every other record stays, the list is numbered 0..n-1 and the multiset of ids is kept |
| OrderedList.SetBody | src/admin/sections/ProjectsEditor.jsx:30-34 | only the fields of one record change; its id, its `order` and every other record stay |
| OrderedList.RemoveAdded | src/admin/sections/ConnectEditor.jsx:27-40 | removing the record just added returns a numbered list unchanged |
| OrderedList.MoveBack | src/admin/sections/EducationEditor.jsx:21-27 | moving a record back by the opposite step restores a numbered list |
| OrderedList.OperationsKeepWellFormed | src/admin/sections/EducationEditor.jsx:21-41 | add, remove, move and update each keep ids unique and `order` equal to position |
| OrderedList.FindIndex | src/admin/sections/SkillsEditor.jsx:85 | the first position holding the id, or -1 exactly when no record has it |
| OrderSort.Sort | src/components/Projects.jsx:91 | the result is sorted by `order` and is a permutation of the input |
| OrderSort.Insert | src/components/Projects.jsx:91 | placing one record into a sorted list keeps it sorted and adds exactly that record |
| OrderSort.SortSorted | src/admin/sections/ProjectsEditor.jsx:13 | sorting an already sorted list returns it unchanged |
| OrderSort.LoadAfterSave | src/admin/sections/ProjectsEditor.jsx:13 | a saved, numbered list comes back from the load-time sort as it was saved |
| OrderSort.SortSameElements | src/components/Projects.jsx:91 | the sorted list holds exactly the elements of the input |
| OrderSort.FilterSorted | src/components/Projects.jsx:97 | keeping some elements of a sorted list leaves it sorted |
| Seqs.Without | src/admin/sections/HeroEditor.jsx:47 | an in-range index removes exactly that position, keeping what is before and after it; an out-of-range index removes nothing |
| Seqs.MaxOrZero | src/admin/sections/ProjectsEditor.jsx:24 | at least 0 and every element, and either 0 or one of the elements |
| Seqs.Filter | src/components/Projects.jsx:97 | every element that passes is kept, and every kept element passes and comes from the input |
| Seqs.FilterSubMultiset | src/components/Projects.jsx:97 | filtering adds no element and repeats none: the result is a sub-multiset of the input |
| Seqs.FilterCount | src/components/Projects.jsx:97 | a value is kept as often as the input holds it when it passes, and never otherwise |
| Seqs.FilterSameMultiset | src/components/Projects.jsx:97 | lists with the same elements, counted, filter to lists with the same elements, counted |
| Text.Trim | src/admin/sections/ProjectsEditor.jsx:73 | a contiguous slice after the leading whitespace, with no whitespace at either end; empty exactly when the input is all whitespace |
| Text.TrimIdempotent | src/admin/sections/ProjectsEditor.jsx:73 | trimming twice is trimming once |
| Text.CollapseWhitespace | server/routes/data.js:25 | the result contains no whitespace |
| Text.CollapseIdentityIff | server/routes/data.js:25 | a name is left unchanged exactly when it has no whitespace |
| Text.CollapseIdempotent | server/routes/data.js:25 | collapsing twice is collapsing once |
| Text.CollapseKeepsContent | server/routes/data.js:25 | apart from whitespace and `-`, the characters of the name survive in order |
| Text.Split | src/admin/sections/ProjectsEditor.jsx:103 | at least one part, no part holds the separator, and text with a separator gives two or more parts |
| Text.JoinSplit | src/admin/sections/ProjectsEditor.jsx:103-106 | joining the parts with the separator gives back the input |
| Text.SplitJoin | src/admin/sections/ProjectsEditor.jsx:103 | splitting joined separator-free parts gives back the parts |
| Text.SplitSecond | server/routes/auth.js:26 | `p + sep + t` splits into exactly `[p, t]` |
| Text.ToLower | server/routes/data.js:34 | the same length, with each character lowered |
| Text.Decimal | server/routes/data.js:25 | a digit string without a leading zero |
| Text.ParseDecimalInverse | server/routes/data.js:25 | the decimal rendering of a timestamp reads back as that timestamp |
| ProjectsEditor.AddProject | src/admin/sections/ProjectsEditor.jsx:23-27 | the blank project is appended with an id above all others (1 on an empty list), `order` equal to the old length, not featured, no images, no tags and empty text fields; the editor's invariants are kept |
| ProjectsEditor.UpdateProject | src/admin/sections/ProjectsEditor.jsx:30-34 | exactly one text field of one project changes |
| ProjectsEditor.RemoveProject | src/admin/sections/ProjectsEditor.jsx:36-39 | one project removed, survivors in order and numbered 0..n-2, at most one featured still |
| ProjectsEditor.MoveProject | src/admin/sections/ProjectsEditor.jsx:41-47 | a no-op out of range; otherwise the two records trade places, every other record stays, the list is numbered 0..n-1 and the id multiset is kept; at most one featured project stays at most one |
| ProjectsEditor.ToggleFeatured | src/admin/sections/ProjectsEditor.jsx:49-52 | afterwards at most one project is featured and it can only be the toggled one, whose flag is flipped; nothing but the flags changes |
| ProjectsEditor.StripLeadingSlash | src/admin/sections/ProjectsEditor.jsx:60 | one leading `/` dropped, anything else left alone |
| ProjectsEditor.ImagesUploaded | src/admin/sections/ProjectsEditor.jsx:54-63 | the existing images stay first and the uploaded paths follow in the server's order, each without its leading `/`; nothing else changes |
| ProjectsEditor.RemoveImage | src/admin/sections/ProjectsEditor.jsx:65-69 | only one image of one project is dropped |
| ProjectsEditor.WithTags | src/admin/sections/ProjectsEditor.jsx:77 | only the tag list of one project is replaced |
| ProjectsEditor.AddTag | src/admin/sections/ProjectsEditor.jsx:72-81 | a blank tag changes nothing; otherwise the pending input is cleared and the trimmed tag is appended unless present, so a duplicate-free list stays duplicate-free; other projects untouched |
| ProjectsEditor.RemoveTag | src/admin/sections/ProjectsEditor.jsx:83-87 | only one tag of one project is dropped, the pending inputs stay |
| ProjectsEditor.TagKeyDown | src/admin/sections/ProjectsEditor.jsx:89-98 | Enter and `,` commit the pending text; Backspace on an empty input is exactly the removal of the last tag, and only when there is one; other keys change nothing |
| ProjectsEditor.EnterThenBackspace | src/admin/sections/ProjectsEditor.jsx:89-98 | Enter on a new, non-blank tag followed by Backspace on the emptied input restores the projects and leaves the input empty |
| ProjectsEditor.AddTags | src/admin/sections/ProjectsEditor.jsx:105 | committing parts touches only one project's tag list |
| ProjectsEditor.AddTagsContents | src/admin/sections/ProjectsEditor.jsx:105 | old tags stay first, every non-blank trimmed part is in the result, nothing else is added, and no duplicates appear |
| ProjectsEditor.AddTagsKeepsOld | src/admin/sections/ProjectsEditor.jsx:72-81 | committing pasted parts keeps the old tags first and in order, and keeps a duplicate-free list duplicate-free |
| ProjectsEditor.AddTagsAddsParts | src/admin/sections/ProjectsEditor.jsx:72-81 | after committing pasted parts, every part that is not blank after trimming is a tag |
| ProjectsEditor.AddTagsOnlyParts | src/admin/sections/ProjectsEditor.jsx:72-81 | committing pasted parts adds no tag other than a trimmed part |
| ProjectsEditor.TagChange | src/admin/sections/ProjectsEditor.jsx:100-110 | only project `i` changes, and only in its tags; only its pending input changes; text with a comma leaves the trimmed last comma-separated piece pending; text without one leaves the tags alone and becomes the pending input verbatim |
| ProjectsEditor.PasteCommitsAllButLast | src/admin/sections/ProjectsEditor.jsx:102-106 | the parts rejoin to the pasted text, every non-blank part but the last becomes a tag, the last stays pending |
| ProjectsView.ImgSrc | src/components/Projects.jsx:25-28 | the result is absolute or a URL, and is the input or the input behind one `/` |
| ProjectsView.ImgSrcIdentityIff | src/components/Projects.jsx:26-27 | a path is left unchanged exactly when it starts with `/` or `http` |
| ProjectsView.ImgSrcIdempotent | src/components/Projects.jsx:26-27 | normalising twice is normalising once |
| ProjectsView.StripThenImgSrc | src/components/Projects.jsx:26-27 | the editor's stripping followed by the page's normalisation restores a path exactly when what follows its `/` is neither `/` nor `http` |
| ProjectsView.UploadPathDisplayed | src/components/Projects.jsx:26-27 | every `/uploads/<name>` path survives stripping and normalisation unchanged |
| ProjectsView.FirstFeatured | src/components/Projects.jsx:96 | the first featured position in display order, or none exactly when no project is featured |
| ProjectsView.Render | src/components/Projects.jsx:89-97 | a featured card exactly when some project is featured; that card is a stored featured project with the least `order` of all featured projects; the others are the non-featured projects, each as often as stored, in ascending `order`; the featured card is not among them |
| ProjectsView.FirstFeaturedIsLeast | src/components/Projects.jsx:91-96 | the first featured entry of the sorted list has the least `order` of all featured projects |
| ProjectsView.AllShownIff | src/components/Projects.jsx:96-97 | every project is on the page exactly when all featured projects are the same record |
| ProjectsView.AtMostOneFeaturedAllShown | src/components/Projects.jsx:96-97 | under the editor's invariant every project is shown |
| ProjectsView.ToggleThenRender | src/admin/sections/ProjectsEditor.jsx:49-52 | after a toggle the page features exactly the toggled project, or none when it was featured before |
| SkillsEditor.AddSkill | src/admin/sections/SkillsEditor.jsx:34-37 | an unnamed skill in `Other` with icon `FaCode` and colour `#64ffda`, a fresh id and `order` equal to the old length |
| SkillsEditor.UpdateSkill | src/admin/sections/SkillsEditor.jsx:39-43 | exactly one field of one skill changes |
| SkillsEditor.RemoveSkill | src/admin/sections/SkillsEditor.jsx:45-47 | one skill removed, survivors in order and numbered 0..n-2 |
| SkillsEditor.MoveSkill | src/admin/sections/SkillsEditor.jsx:49-55 | a no-op out of range; otherwise a swap in the whole list that keeps every other skill in place, renumbered, with the id multiset kept |
| SkillsEditor.Rendered | src/admin/sections/SkillsEditor.jsx:57 | the unfiltered view sorts the state itself, so the handlers act on a sorted permutation; a category view leaves the state alone; a saved list is not reordered |
| SkillsEditor.View | src/admin/sections/SkillsEditor.jsx:57 | the rows are sorted by `order` and are all skills, or exactly the skills of the chosen category |
| SkillsEditor.RealIndex | src/admin/sections/SkillsEditor.jsx:85 | the first position in the handlers' list with the row's id |
| SkillsEditor.RealIndexIsRow | src/admin/sections/SkillsEditor.jsx:85 | with unique ids the record found is exactly the row shown |
| SkillsEditor.EditFromView | src/admin/sections/SkillsEditor.jsx:91-96 | an edit in the view changes one field of the record with the row's id and nothing else |
| SkillsEditor.MoveFromView | src/admin/sections/SkillsEditor.jsx:100-101 | the arrows swap the row's record with its neighbour in the whole list and keep every other record in place; a target outside the list changes nothing |
| SkillsEditor.MoveInCategoryCanLeaveViewUnchanged | src/admin/sections/SkillsEditor.jsx:100-101 | with categories `cat`, other, `cat`, moving the first `cat` row down swaps it with the hidden skill and the `cat` view keeps its order |
| EducationEditor.AddEducation | src/admin/sections/EducationEditor.jsx:30-33 | an empty entry appended with a fresh id and `order` equal to the old length; groups untouched |
| EducationEditor.UpdateEducation | src/admin/sections/EducationEditor.jsx:34-38 | exactly one field of one entry changes; groups untouched |
| EducationEditor.RemoveEducation | src/admin/sections/EducationEditor.jsx:39-41 | entries renumbered after the removal; groups untouched |
| EducationEditor.AddGroup | src/admin/sections/EducationEditor.jsx:53-56 | an empty group appended with a fresh group id; entries untouched |
| EducationEditor.UpdateProvider | src/admin/sections/EducationEditor.jsx:57-61 | only the provider of one group changes, its certificates stay |
| EducationEditor.RemoveGroup | src/admin/sections/EducationEditor.jsx:62-64 | groups renumbered after the removal; entries untouched |
| EducationEditor.MoveGroup | src/admin/sections/EducationEditor.jsx:65-67 | a no-op out of range, otherwise a renumbered swap that keeps every other group in place and the id multiset; entries untouched |
| EducationEditor.MaxCertId | src/admin/sections/EducationEditor.jsx:72 | `max(0, all certificate ids)`: at least 0 and every certificate id in every group, and either 0 or the id of some certificate |
| EducationEditor.AddCert | src/admin/sections/EducationEditor.jsx:70-75 | a certificate with an id above every certificate id in all groups is appended to one group with `order` equal to that group's length; all other groups and entries stay; ids unique across groups stay unique |
| EducationEditor.NewCertKeepsUnique | src/admin/sections/EducationEditor.jsx:72-73 | appending a certificate whose id beats every existing one keeps certificate ids unique across groups |
| EducationEditor.UpdateCert | src/admin/sections/EducationEditor.jsx:76-80 | exactly one field of one certificate changes |
| EducationEditor.RemoveCert | src/admin/sections/EducationEditor.jsx:81-85 | only the target group's certificates change, renumbered 0..m-2; other groups and entries stay |
| AboutEditor.SetIntro | src/admin/sections/AboutEditor.jsx:80 | only the intro text changes |
| AboutEditor.AddPhilosophy | src/admin/sections/AboutEditor.jsx:32-35 | a `FaCode` card appended with a fresh id and `order` equal to the old length; intro and journey untouched |
| AboutEditor.UpdatePhilosophy | src/admin/sections/AboutEditor.jsx:36-40 | exactly one field of one card changes |
| AboutEditor.RemovePhilosophy | src/admin/sections/AboutEditor.jsx:41-43 | cards renumbered 0..n-2; intro and journey untouched |
| AboutEditor.MovePhilosophy | src/admin/sections/AboutEditor.jsx:44-46 | a no-op out of range; otherwise a renumbered swap that keeps every other card in place and the id multiset; nothing else touched |
| AboutEditor.AddJourney | src/admin/sections/AboutEditor.jsx:49-52 | an empty entry appended with a fresh id and `order` equal to the old length |
| AboutEditor.UpdateJourney | src/admin/sections/AboutEditor.jsx:53-57 | exactly one field of one entry changes |
| AboutEditor.RemoveJourney | src/admin/sections/AboutEditor.jsx:58-60 | entries renumbered 0..n-2; intro and cards untouched |
| AboutEditor.MoveJourney | src/admin/sections/AboutEditor.jsx:61-63 | a no-op out of range; otherwise a renumbered swap that keeps every other entry in place and the id multiset; intro and cards untouched |
| ConnectEditor.UpdateContactInfo | src/admin/sections/ConnectEditor.jsx:23-25 | only the named contact field changes; links stay |
| ConnectEditor.AddLink | src/admin/sections/ConnectEditor.jsx:27-30 | a `FaGithub` link appended with a fresh id and `order` equal to the old length |
| ConnectEditor.UpdateLink | src/admin/sections/ConnectEditor.jsx:32-36 | exactly one field of one link changes |
| ConnectEditor.RemoveLink | src/admin/sections/ConnectEditor.jsx:38-40 | links renumbered 0..n-2 in their relative order; contact information untouched |
| ConnectEditor.RemoveAddedLink | src/admin/sections/ConnectEditor.jsx:27-40 | adding a link and removing it gives back a saved section |
| HeroEditor.SetText | src/admin/sections/HeroEditor.jsx:94-106 | one text field changes, nothing else |
| HeroEditor.ProfileImageUploaded | src/admin/sections/HeroEditor.jsx:23-31 | the returned path is stored verbatim, nothing else changes |
| HeroEditor.AddSocialLink | src/admin/sections/HeroEditor.jsx:33-38 | an empty `FaGithub` link appended after the existing ones |
| HeroEditor.UpdateSocialLink | src/admin/sections/HeroEditor.jsx:40-44 | only one field of one link changes |
| HeroEditor.RemoveSocialLink | src/admin/sections/HeroEditor.jsx:46-48 | exactly one position removed, no renumbering |
| HeroEditor.AddWord | src/admin/sections/HeroEditor.jsx:50-52 | an empty word appended |
| HeroEditor.UpdateWord | src/admin/sections/HeroEditor.jsx:54-58 | only one word changes |
| HeroEditor.RemoveWord | src/admin/sections/HeroEditor.jsx:60-62 | exactly one word removed |
| HeroEditor.RemoveAddedSocialLink | src/admin/sections/HeroEditor.jsx:33-48 | adding a link and removing the last one gives back the section |
| HeroEditor.RemoveAddedWord | src/admin/sections/HeroEditor.jsx:50-62 | adding a word and removing the last one gives back the section |
| Http.Reply | server/routes/data.js:68 | the status given and a body holding just the message |
| Http.Failure | server/routes/data.js:72 | a body with exactly a message and an error text |
| ContentStore.GetAll | server/routes/data.js:53-60 | the whole document, or 500 with the read error |
| ContentStore.GetSection | server/routes/data.js:63-74 | a present section is returned, an absent one answers 404, an unreadable file 500 |
| ContentStore.Put | server/routes/data.js:77-90 | an absent section answers 404 and changes nothing; a present one is replaced by the body, every other section and the key set stay, and the body is echoed; read and write failures answer 500 and leave the file |
| ContentStore.WriteThenRead | server/routes/data.js:84-86 | a written section reads back as the body |
| ContentStore.PutIdempotent | server/routes/data.js:84-85 | writing the same body twice leaves the document of one write |
| ContentStore.PutLeavesOtherSections | server/routes/data.js:84 | a write leaves every read of another section as it was |
| ContentStore.PutKeepsSections | server/routes/data.js:81-85 | no write adds or removes a section |
| ContentStore.GetSectionAsWritten | server/routes/data.js:67-70 | as written: own keys are returned, undefined names answer 404, inherited methods answer 200 with no JSON body, and `__proto__` without an own key answers 200 `{}` |
| ContentStore.PutAsWritten | server/routes/data.js:81-86 | as written: an unreadable file or a failed write answers 500; an undefined name answers 404; an own key or inherited method name is written and echoed; `__proto__` without an own key answers 200 while the file stays as it was |
| ContentStore.ProtoAfterWrite | server/routes/data.js:84-86 | what `data.__proto__` reads after the assignment: an object or array body itself, `{}` for another primitive, nothing for `null` |
| ContentStore.UpdatedReply | server/routes/data.js:86 | the success reply carries the message and, when defined, the `data` field, and nothing else |
| ContentStore.AsWrittenAgreesOnOwnKeys | server/routes/data.js:67-85 | the routes as written and the corrected routes agree on every name that is an own key or not inherited at all |
| ContentStore.PutInheritedNameAddsSection | server/routes/data.js:81-85 | as written, a PUT on `toString` adds a section; the corrected route answers 404 |
| ContentStore.GetInheritedNameAnswersEmpty | server/routes/data.js:67-70 | as written, a GET on `toString` answers 200 with no JSON; the corrected route answers 404 |
| ContentStore.PutProtoNameIsLost | server/routes/data.js:81-86 | as written, a PUT on `__proto__` reports success yet the file keeps its sections and a later read answers `{}`; the corrected route answers 404 |
| Uploads.LastIndexOf | server/routes/data.js:34 | the last position of the character, or -1 exactly when it is absent |
| Uploads.StripTrailingSlashes | server/routes/data.js:34 | a prefix of the path without a trailing `/` |
| Uploads.BaseName | server/routes/data.js:34 | the last segment holds no `/` |
| Uploads.ExtName | server/routes/data.js:34 | empty, or a suffix of the last segment shorter than it, starting with its only `.` |
| Uploads.ExtNameOfSuffix | server/routes/data.js:34 | a plain file name `x.e`, with `x` non-empty, has extension `.e` |
| Uploads.ExtensionWithAllowedWordAccepted | server/routes/data.js:33-36 | any extension that merely contains an allowed word passes the extension test, so the filter's verdict rests on the MIME type alone |
| Uploads.FilterIgnoresExtensionCase | server/routes/data.js:34 | the filter gives the same verdict whatever the case of the extension |
| Uploads.NoExtensionRejected | server/routes/data.js:34-37 | a name without a `.` is always rejected |
| Uploads.StoredName | server/routes/data.js:25 | the stored name has no whitespace and a `-` right after the timestamp |
| Uploads.ParseStoredNameInverse | server/routes/data.js:25 | the stored name splits back into the timestamp and the collapsed original name |
| Uploads.StoredNamesDiffer | server/routes/data.js:25 | two different timestamps never give the same stored name |
| Uploads.FileEntry | server/routes/data.js:106-109 | a `filePath` of `/uploads/` + name and the name |
| Uploads.UploadOne | server/routes/data.js:93-99 | no file answers 400 and stores nothing; a rejected file answers 500 and stores nothing; an accepted one is stored and answered with its path |
| Uploads.StoredNames | server/routes/data.js:25 | one stored name per file, in order |
| Uploads.UploadMany | server/routes/data.js:102-111 | more than ten files or one rejected file answers 500 and stores nothing; no files answers 400; otherwise every file is stored and the paths come back in input order |
| Uploads.Delete | server/routes/data.js:114-126 | an absent file answers 404 with the directory unchanged; a present one is removed; an unlink failure answers 500 |
| Uploads.UploadThenDelete | server/routes/data.js:93-126 | deleting a file just uploaded restores the directory |
| Uploads.DeleteAdded | server/routes/data.js:117-119 | deleting an added name succeeds and leaves the directory as before the addition |
| Uploads.DeleteTwice | server/routes/data.js:117-121 | a second delete of the same file answers 404 |
| Auth.Login | server/routes/auth.js:7-17 | a missing or falsy password answers 400 before any comparison; a different password 401; a token with role `admin` and a 24h lifetime exactly when the configured password matches and signing succeeds; a matching password whose signing fails answers 500 through the default handler |
| Auth.TokenOnlyForPassword | server/routes/auth.js:9-16 | a token is only issued for the configured, non-empty password |
| Auth.EmptyPasswordNeverCompared | server/routes/auth.js:9-11 | an empty or absent password answers 400 even when the configured password is empty |
| Auth.Verify | server/routes/auth.js:20-31 | 200 `valid: true` exactly when the header starts with `Bearer ` and its second space-separated piece checks; every other case answers 401 `valid: false` |
| Auth.VerifyBearer | server/routes/auth.js:22-27 | `Bearer <token>` passes exactly when the token checks |
| Auth.VerifyIgnoresTail | server/routes/auth.js:26 | text after a further space is ignored |
| Auth.LoginThenVerify | server/routes/auth.js:15-27 | the configured password gets a 200 with a token string, and that token passes verify whenever the checker accepts what the signer produced |

## Left out

- Rendering, styling and animation (JSX, framer-motion, sliders, typewriter, particle and floating-icon effects) are view code with nothing to state.
- The editors' save and load calls, the API client, routing, the login page and the route guard are network and browser-storage wiring.
- server/middleware/auth.js is not part of this model. The protected routes are modelled as if the guard had already admitted the request.
- api/contact.js is a mail relay: a network call with no logic to state.
- The display-only sorts in About.jsx, Skills.jsx and Education.jsx are the same sort by `order` as `OrderSort.Sort`. The sorts inside the editors' render functions are taken as already applied: each editor operation acts on the sorted list.
- React batches state updates asynchronously. Each handler is modelled as one sequential transition.
- The clock, the filesystem, multer's parsing and its internal limit enforcement are parameters. A file over 10 MB is modelled as rejected (`Uploads.Accepted`).
- `Uploads.UploadMany`: the model assumes multer stores all files or none. A mid-batch failure that leaves earlier files on disk is not modelled.
- `Uploads.ExtNameOfSuffix`: stated only for a plain file name without `/`. Multer's original names are plain names. A name with directory parts is not covered.
- `ContentStore.Put`: a failed write is taken to leave the file as it was. A partial write is not modelled.
- Delete joins the raw file name onto the uploads directory without a check. Path traversal is not modelled and nothing is claimed about it.
- JWT signing and checking are the parameters `sign` and `check`. The cryptography and the token's expiry are not modelled.
- JSON numbers are integers. Floating-point values are not modelled.
- `Text.ToLower` lowers ASCII letters only. JavaScript's full Unicode case mapping is not modelled; no allowed word depends on it.
- `Http.ServerError`: the default error handler's page is modelled as a body that is not JSON (`None`). Its text is not modelled.
- "At most one featured project" is not enforced by the server. It is stated only for the editor (`ProjectsEditor.ToggleFeatured`).
- `ProjectsView.Render`: when several featured projects share the least `order`, the stable sort shows the one stored first. Which of them is shown is not stated.
- `Text.CollapseWhitespace`: the exact output (one `-` per run of whitespace) is stated only through its consequences (no whitespace, idempotence, identity on clean names, non-space characters kept in order). The number of dashes is not stated.

## Findings

| source | as written | input that shows it | evidently intended | confidence | as-written member | corrected member |
|---|---|---|---|---|---|---|
| server/routes/data.js:81-85 | a section exists when `data[section] !== undefined`, which also holds for names every object inherits | `PUT /api/data/toString` on a document without that key answers 200 and adds a `toString` section | only sections present in the document can be replaced; other names answer 404 | not executed | ContentStore.PutAsWritten, ContentStore.PutInheritedNameAddsSection | ContentStore.Put |
| server/routes/data.js:67-70 | the same test on the read route | `GET /api/data/toString` answers 200 with a function, which JSON cannot encode, so the body is empty | an absent section answers 404 | not executed | ContentStore.GetSectionAsWritten, ContentStore.GetInheritedNameAnswersEmpty | ContentStore.GetSection |
| server/routes/data.js:81-86 | `__proto__` also passes the existence test, but assigning to it only replaces the prototype, which the file write ignores | `PUT /api/data/__proto__` with an object body on a document without that key answers 200 "updated successfully" and leaves the file as it was | a name that is not a section answers 404 | not executed | ContentStore.PutAsWritten, ContentStore.PutProtoNameIsLost | ContentStore.Put |
