# Card collection of the admin API, in Dafny

This project models the admin API handler of a small card-gallery CMS. Each card holds an id, a caption text, an image reference and a creation time. The handler keeps the cards in one JSON document (`src/data/cards.json`) and their images as files under `public/uploads/`. Every request does a whole-document read-modify-write:

- **GET** returns the collection.
- **POST** moves the uploaded file to a uuid-prefixed name and appends a card.
- **PUT** finds the first card with the id and sets its text. If a new image came with the request, it moves the new file into place, unlinks the old one and points the card at the new name.
- **DELETE** finds the first card with the id, unlinks its image and splices the card out.

There are two modules:

- `Cards` (`cards.dfy`) holds the pure pieces:
  - the `Card` and `Upload` records;
  - `readCards`' empty-on-missing rule (`ReadCards`);
  - the image name `<uuid>-<originalFilename || 'image'>` under `/uploads/` (`BaseName`, `ImageRef`);
  - `findIndex` (`FirstMatch`), the two field assignments (`WithText`, `WithImage`) and `splice` (`RemoveAt`).

  It also holds the collection invariant `Consistent`: ids are unique, no two cards share an image, and every card's image file exists. Lemmas show which edits keep that invariant.
- `AdminApi` (`admin_api.dfy`) holds the class `CardStore`. Its state has two fields:
  - `doc`: the document, `None` when it is absent or does not parse;
  - `files`: the set of paths under `public/`, written as URL paths such as `/uploads/N`.

  `Rename`, `Unlink` and `WriteCards` model `fs.rename`, `fs.unlink` and `writeCards`. `List`, `Create`, `Update` and `Delete` are the four handler branches. They run those steps in the source's order and return `Ok`, `NotFound` (404) or `Error` (500). `Error` is tagged with the step that failed. Each method's postcondition gives the whole new state in every branch: success, not found, and each failing step. When the invariant held before the call and the inputs are fresh, it also states that the invariant holds afterwards.

Environment inputs become parameters:

- the two `uuidv4()` results;
- `new Date().toISOString()`;
- the parser's temporary path and original file name;
- whether `fs.writeFile` completes (`writeOk`).

A rename fails exactly when its source file is missing. An unlink fails exactly when its target is missing. A failed write may leave the document as it was, or truncated and then unparsable.

What the proofs establish beyond the step-by-step effects:

- Under the invariant, with a fresh upload, the "old file missing" failure of PUT and DELETE cannot happen (`out != Error(UnlinkFailed)`).
- A completed create, update or delete keeps the invariant.
- A completed delete leaves no card with that id.
- An update whose unlink succeeded but whose write failed can leave the card pointing at the deleted file. Likewise, a delete whose write failed can leave the card in the document without its file. So the invariant is promised only when the write succeeds. This follows from the order of the steps; there is no rollback.

The handler validates nothing and behaves in these ways a caller might not expect:

- Neither POST nor PUT validates its text. An empty caption is stored.
- PUT sets the text unconditionally, even to the same value.
- GET never answers 500, because `readCards` catches every error.

## Model

| member | source | states |
|---|---|---|
| `Cards.ReadCards` | src/pages/api/admin.js:15-23 | a missing or unparsable document reads as the empty collection; otherwise the stored sequence comes back unchanged |
| `Cards.BaseName` | src/pages/api/admin.js:61 | a present, non-empty original file name is kept as is; an absent or empty one gives exactly `image`, so the name part is never empty |
| `Cards.ImageRef` | src/pages/api/admin.js:61-70 | the image reference is `/uploads/`, then the uuid, then `-`, then the name part |
| `Cards.ImageRefDeterminesUuid` | src/pages/api/admin.js:61 | uploads named with different uuids of equal length never collide on one reference |
| `Cards.FirstMatch` | src/pages/api/admin.js:104-106 | `Some(i)`: card `i` has the id and no earlier card has it; `None` exactly when no card has the id (findIndex's -1) |
| `Cards.FirstMatchOfUnique` | src/pages/api/admin.js:137 | with unique ids, looking up a card's id finds that card |
| `Cards.WithText` | src/pages/api/admin.js:110 | the matched card gets the new text and keeps its id, image and createdAt; length is kept and every other card is unchanged |
| `Cards.WithImage` | src/pages/api/admin.js:121 | the matched card gets the new image and keeps its id, text and createdAt; every other card is unchanged |
| `Cards.RemoveAt` | src/pages/api/admin.js:148 | exactly the element at the index is removed: one shorter, the cards before it keep their positions, the cards after it shift down by one, and the multiset loses just that card |
| `Cards.MoveKeepsConsistent` | src/pages/api/admin.js:63-81 | moving a file that no card refers to (a create whose write fails) keeps the invariant |
| `Cards.AppendKeepsConsistent` | src/pages/api/admin.js:61-76 | appending a card with a fresh id and a freshly moved image keeps the invariant; the ids grow by exactly the new id |
| `Cards.WithTextKeepsConsistent` | src/pages/api/admin.js:104-110 | changing a text keeps the invariant and the set of ids |
| `Cards.ReplaceImageKeepsConsistent` | src/pages/api/admin.js:112-122 | after moving a fresh upload in, unlinking the old image and switching the reference, the invariant holds against the new files |
| `Cards.RemoveAtSets` | src/pages/api/admin.js:148 | with unique ids and images, the splice removes exactly the card's id from the ids and its image from the images |
| `Cards.RemoveAtKeepsConsistent` | src/pages/api/admin.js:143-148 | unlinking the card's image and splicing the card out keeps the invariant and removes exactly that id |
| `AdminApi.CardStore.List` | src/pages/api/admin.js:34-38 | GET returns exactly what `readCards` gives for the current document |
| `AdminApi.CardStore.Rename` | src/pages/api/admin.js:65 | fails exactly when the source file is missing; on success the source path is replaced by the destination |
| `AdminApi.CardStore.Unlink` | src/pages/api/admin.js:145 | fails exactly when the file is missing; afterwards the path is gone |
| `AdminApi.CardStore.WriteCards` | src/pages/api/admin.js:26-29 | a completed write stores exactly the given sequence; a failed one leaves the old document or an unparsable one |
| `AdminApi.CardStore.Create` | src/pages/api/admin.js:45-83 | rename first: if it fails, neither document nor files change; otherwise the upload is at `ImageRef`; on success the card with the given id, text, image and time is appended at the end of what `readCards` gave; on a write failure the moved file stays; keeps the invariant for a fresh id and upload |
| `AdminApi.CardStore.Update` | src/pages/api/admin.js:84-130 | unknown id: 404, nothing changes; no image: only the first match's text changes; rename failure: nothing changes; old file missing: the new file stays and the document is not written; otherwise the old file is removed, the card now refers to the new one and the rest of the card is kept; under the invariant the unlink cannot fail, the card updated is the only one with that id, and a completed update keeps the invariant |
| `AdminApi.CardStore.Delete` | src/pages/api/admin.js:131-155 | unknown id: 404, nothing changes; missing file: nothing changes and the card remains; otherwise the file is removed and the card is spliced out; under the invariant the unlink cannot fail, the card removed is the only one with that id, and a completed delete keeps the invariant and leaves no card with that id |
| `AdminApi.Session` | src/pages/api/admin.js:45-155 | for any captions, id, time and two uploads in distinct temporary files with distinct equal-length uuids: create a card, recaption it, replace its image, delete it; GET shows each step's single card, the image reference survives the recaption and is replaced by the second upload's, and at the end no card and no file is left |
| `AdminApi.CreateAndCaption` | src/pages/api/admin.js:45-130 | on an empty store, POST then PUT without an image gives one card with the new caption; the uploaded file is stored under the card's image reference |
| `AdminApi.ReplaceAndDelete` | src/pages/api/admin.js:84-155 | for a single stored card, PUT with a new image switches the card to the new file, and DELETE then leaves no card and no file |

## Left out

- Multipart parsing by formidable is not modelled. That includes its error replies at src/pages/api/admin.js:54-57 and 93-96; the parser's output is taken as parameters.
- A missing `fields.text[0]` or `files.image[0]` (POST, src/pages/api/admin.js:59-60) or a missing `fields.id[0]` or `fields.text[0]` (PUT, lines 98-99) is not modelled. The lookup throws outside the `try`, before any state changes, and the request gets no reply. The admin page appends `image` to its form even when no file was chosen (src/pages/admin.js:28). The value then arrives as a text field, not a file, so a POST without a chosen file takes exactly this path at line 60.
- The 405 reply for other HTTP methods is not modelled, nor is the HTTP response plumbing. Outcomes are only tagged `Ok`/`NotFound`/`Error`.
- `uuidv4()` and `new Date().toISOString()` are not modelled: they are foreign calls and appear as parameters.
- JSON formatting is not modelled. A parsed document that is not an array of card records is not modelled either. The document is either a sequence of cards or unparsable.
- `process.cwd()` and `path.join` are not modelled. Paths are plain strings and `public/` is the root of `files`. What is lost: `path.join` resolves `..`. A client-sent original name such as `../../x` gives the reference `/uploads/<uuid>-../../x`, which resolves to `public/uploads/x`. So two cards with different references can own one file, and the file can even lie outside `public/uploads/`. `DistinctImages` and `ImageRefDeterminesUuid` speak only of reference strings, not of the files they resolve to.
- File-system failures other than a missing source (rename) or a missing target (unlink) are not modelled, such as permissions or a full disk. The write failure is a parameter.
- Concurrent requests racing on the read-modify-write of the document are not modelled. This is concurrency, not logic.
- The admin page UI (src/pages/admin.js), the gallery page (src/pages/index.js) and the unused Mongoose schema (src/models/DataModel.js) are not part of this model.
