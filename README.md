# Calico core logic in Dafny

Calico is a clothing-listing web application. It has a Next.js front end and a
Python back end. The back end embeds clothing images with FashionCLIP so that
listings can be searched by image. Most of the repository is page markup. This
project models the three parts that contain logic and proves their properties.

- **The embedding service** (`FashionClipService`).
  - `preprocess_image` accepts a path, raw bytes or a PIL image. Any other
    value raises `ValueError`. The image is converted to RGB when it is not
    already in that mode.
  - `batch_process_images` preprocesses every input first. It then cuts the
    images into consecutive slices `images[i:i+batch_size]` for `i` in
    `range(0, n, batch_size)` and calls the encoder once per slice. Finally it
    concatenates the encoder's rows.
  - `find_most_similar` ranks candidates with
    `argsort(similarities)[::-1][:top_k]` and returns the chosen indices with
    their scores.
  - `PyBuiltins` holds the Python and NumPy behaviour these rely on: `range`,
    slicing with Python's handling of negative and out-of-range bounds,
    `[::-1]` and `np.concatenate`.
- **The authentication form schema** (`AuthFormSchema`). `authFormSchema(type)`
  is modelled as a list of field rules. Checking a record against it gives
  zod's issues in field order. The record is accepted when there are none.
- **The navigation bar** (`Navbar`). The `navItems` table is mapped to links.
  A link is active exactly when the pathname equals its path. The active link
  gets the light icon and the highlight classes.

`BatchProcessImages` is an imperative method with the source's two loops. Its
postcondition ties the result, the encoder calls and the progress log it
produces to the function `BatchProcess`. The lemmas below state the batching
properties of that function. Everything else is pure, written as functions and
lemmas.

Modelling choices:

- PIL's `Image.open`, for a path and for bytes, is a parameter (`Loader`) that
  returns an image or a failure. The FashionCLIP encoder is a parameter
  `(batch, batch_size) -> rows`.
- An image is its mode together with an opaque identity of its pixels.
  Converting to RGB changes the mode and keeps that identity.
- Similarity scores are integers produced by a parameter `similarity`. It
  stands for the dot product, or for cosine similarity when normalisation is
  off.
- Calls to the encoder and the "Processing batch i/total" log lines are
  returned as lists, so their order and arguments can be stated.
- `np.argsort` is modelled by one concrete sort, `ArgSort`. The top-k
  properties are proved for every order that satisfies `IsArgsort`
  (`TopOfArgsort`). They therefore hold whichever way NumPy orders equal
  scores.
- In the form schema, `z.email()` is a parameter `isEmail`. A string's length
  is JavaScript's `.length`, its number of UTF-16 code units (`Utf16Length`), so
  a character outside the Basic Multilingual Plane counts twice.
- The source's defaults are constants: `DefaultBatchSize` (32) and `DefaultTopK`
  (10). The navigation table is the constant `NavItems`.

## Model

| member | source | states |
|---|---|---|
| `PyBuiltins.Range` | src/backend/app/services/fashion_clip_service.py:140 | No contract. Python's `range(start, stop, step)`: it counts up for a positive step and down for a negative one, and a zero step is the caller's error. `RangeAt`, `RangeLength` and `RangeMembers` state its values. |
| `PyBuiltins.SliceBound` | src/backend/app/services/fashion_clip_service.py:141 | A slice bound becomes an index between 0 and n. A bound inside that range is kept, and a negative bound counts from the end. |
| `PyBuiltins.Slice` | src/backend/app/services/fashion_clip_service.py:141 | No contract. Python's `s[lo:hi]` with the bounds normalised by `SliceBound`. It is empty when they cross and never fails. |
| `PyBuiltins.Reversed` | src/backend/app/services/fashion_clip_service.py:242 | No contract. Python's `s[::-1]`: entry k is entry `len(s) - 1 - k`. |
| `PyBuiltins.Flatten` | src/backend/app/services/fashion_clip_service.py:149 | No contract. `np.concatenate(parts, axis=0)` on row lists. The empty list, which NumPy refuses, is handled by the callers. |
| `PyBuiltins.FlattenConcat` | src/backend/app/services/fashion_clip_service.py:149 | Concatenating two lists of parts gives the concatenation of their concatenations. |
| `PyBuiltins.RangeAt` | src/backend/app/services/fashion_clip_service.py:140 | Value k of a positive-step range is `start + k * step`, and it lies in `[start, stop)`. |
| `PyBuiltins.RangeLength` | src/backend/app/services/fashion_clip_service.py:140-142 | A positive-step range has `(stop - start + step - 1) // step` values. |
| `PyBuiltins.RangeMembers` | src/backend/app/services/fashion_clip_service.py:140 | A positive-step range holds exactly the values below stop that are a whole number of steps from start. |
| `PyBuiltins.PythonExamples` | src/backend/app/services/fashion_clip_service.py:140-149 | Some concrete cases: `range(0, 5, 2)` is `[0, 2, 4]` and `range(0, 5, -1)` is empty. `[1..5][4:6]` is `[5]`, `[1, 2, 3][0:-5]` is empty and `[1, 2, 3][0:-1]` is `[1, 2]`. `[1, 2, 3][::-1]` is `[3, 2, 1]`. |
| `FashionClipService.ToRgb` | src/backend/app/services/fashion_clip_service.py:74-75 | The result is in RGB mode and keeps the pixel data. An image already in RGB comes back unchanged. |
| `FashionClipService.FromLoaded` | src/backend/app/services/fashion_clip_service.py:63-75 | An opened image becomes that image in RGB mode with its pixels kept. A failure to open becomes `ImageLoadFailed` with the loader's reason. |
| `FashionClipService.Preprocess` | src/backend/app/services/fashion_clip_service.py:59-84 | A path goes through the loader's `openPath` and bytes through its `openBytes`, and the result is what `FromLoaded` makes of it. A PIL image is converted by `ToRgb`. Any other input fails with `UnsupportedInputType`. Every image returned is in RGB mode, and an image already in RGB comes back unchanged. It fails exactly when the input type is unsupported or loading fails. |
| `FashionClipService.PreprocessIdempotent` | src/backend/app/services/fashion_clip_service.py:67-80 | Preprocessing an image that was already preprocessed returns it unchanged. |
| `FashionClipService.PreprocessAll` | src/backend/app/services/fashion_clip_service.py:132-135 | Succeeds exactly when every input preprocesses. It then returns one image per input, in input order. |
| `FashionClipService.PreprocessAllFirstFailure` | src/backend/app/services/fashion_clip_service.py:132-135 | On failure, the error is that of the first input that fails. Every input before it preprocesses. |
| `FashionClipService.PreprocessAllStopsAtFailure` | src/backend/app/services/fashion_clip_service.py:132-135 | Once a prefix of the inputs fails, the whole list fails with that same error. This is why the loop can stop at the first failure. |
| `FashionClipService.Batches` | src/backend/app/services/fashion_clip_service.py:140-141 | No contract. The batches are the slices `images[i:i+b]`, one for each `i` in `range(0, n, b)`. `BatchAt` and `BatchesPartition` state what they are. |
| `FashionClipService.EncodeInBatches` | src/backend/app/services/fashion_clip_service.py:138-149 | No contract. This is the batching half as a function. A zero batch size raises from `range`, and no batches raises from the concatenation. Otherwise it returns the concatenated encoder rows, with one call and one log line per batch. `BatchProcessCalls` and `BatchProcessOutcome` state its properties. |
| `FashionClipService.BatchProcess` | src/backend/app/services/fashion_clip_service.py:130-149 | No contract. Preprocessing runs first, and its error escapes with no encoder calls. Otherwise the result is `EncodeInBatches` on the preprocessed images. The loop methods are proved equal to it. |
| `FashionClipService.DefaultBatchProcess` | src/backend/app/services/fashion_clip_service.py:118-149 | Under the default `batch_size=32`, there are `(n + 31) // 32` encoder calls, each on 1 to 32 images. Rows come back exactly when there is an input. |
| `FashionClipService.PreprocessImages` | src/backend/app/services/fashion_clip_service.py:132-135 | The preprocessing loop returns exactly `PreprocessAll`, stopping at the first failure. |
| `FashionClipService.EncodeImagesInBatches` | src/backend/app/services/fashion_clip_service.py:138-149 | The batching loop returns or raises exactly what `EncodeInBatches` says. It makes the same encoder calls in the same order and logs the same progress lines. |
| `FashionClipService.BatchProcessImages` | src/backend/app/services/fashion_clip_service.py:118-160 | The whole operation returns or raises exactly what `BatchProcess` says. A preprocessing error is re-raised before any encoder call. |
| `FashionClipService.BatchOffsets` | src/backend/app/services/fashion_clip_service.py:140-142 | The batch start offsets are exactly the multiples of b below n, the k-th being k*b. There are `(n + b - 1) // b` of them. |
| `FashionClipService.BatchAt` | src/backend/app/services/fashion_clip_service.py:140-141 | Batch k is `images[k*b : min(k*b + b, n)]`. It is non-empty and holds at most b images, exactly b unless it is the last. |
| `FashionClipService.BatchesPartition` | src/backend/app/services/fashion_clip_service.py:140-149 | Concatenating the batches in order gives back the preprocessed list, so each image is in exactly one batch. There are ceil(n/b) batches. |
| `FashionClipService.BatchProcessCalls` | src/backend/app/services/fashion_clip_service.py:140-146 | With a positive batch size, call k of the encoder receives batch k with `batch_size=len(batch)`. There are `(n + b - 1) // b` calls. Log line k reports `k+1` out of that number. |
| `FashionClipService.BatchProcessOutcome` | src/backend/app/services/fashion_clip_service.py:130-160 | A preprocessing error is re-raised before any encoder call. A batch size of 0 raises from `range`. No images, or a negative batch size, gives no batches, so the concatenation raises. Rows are returned exactly when preprocessing succeeds, b > 0 and the input is non-empty. |
| `FashionClipService.RowOrderFollowsInput` | src/backend/app/services/fashion_clip_service.py:127-149 | Take an encoder that embeds image by image. Then row k of the result is the embedding of the k-th preprocessed input. |
| `FashionClipService.BatchSizeIsInvisible` | src/backend/app/services/fashion_clip_service.py:118-149 | For such an encoder, any two positive batch sizes return or raise the same thing. |
| `FashionClipService.Similarities` | src/backend/app/services/fashion_clip_service.py:233-234 | No contract. Score k is `similarity(candidates[k], query)`, the dot product of line 234 taken as a parameter. |
| `FashionClipService.TopCount` | src/backend/app/services/fashion_clip_service.py:242 | No contract. This is how many entries `s[:top_k]` keeps of a list of length n: `min(top_k, n)`, or `max(0, n + top_k)` for a negative `top_k`. `SlicePrefix` ties it to `Slice`. |
| `FashionClipService.InsertByScore` | src/backend/app/services/fashion_clip_service.py:242 | Inserting an index gives the old indices plus the new one, as a multiset, and all of them stay valid. |
| `FashionClipService.InsertKeepsAscending` | src/backend/app/services/fashion_clip_service.py:242 | Inserting into an index list sorted by score keeps it sorted. |
| `FashionClipService.InsertKeepsDistinct` | src/backend/app/services/fashion_clip_service.py:242 | Inserting an index that is not yet present keeps the list duplicate-free. |
| `FashionClipService.SortIndices` | src/backend/app/services/fashion_clip_service.py:242 | Returns each of the indices 0..m-1 once, in non-decreasing score order. |
| `FashionClipService.ArgSort` | src/backend/app/services/fashion_clip_service.py:242 | The result is a valid argsort of the scores: each index exactly once, by non-decreasing score. |
| `FashionClipService.ReversedArgsort` | src/backend/app/services/fashion_clip_service.py:242 | Holds for every valid argsort. Read backwards (`[::-1]`), it lists every index once, by non-increasing score. |
| `FashionClipService.TopOfArgsort` | src/backend/app/services/fashion_clip_service.py:242 | Holds for every valid argsort. `argsort[::-1][:top_k]` keeps `min(top_k, n)` indices, or `max(0, n + top_k)` when `top_k` is negative. The indices are distinct, valid and in non-increasing score order, and no index left out scores higher than one kept. |
| `FashionClipService.FindMostSimilar` | src/backend/app/services/fashion_clip_service.py:218-245 | Returns Python's slice count of distinct candidate indices, ranked by non-increasing similarity. Similarity k is the score of index k. Every candidate not returned scores at most every returned one. |
| `FashionClipService.TopKIsPrefix` | src/backend/app/services/fashion_clip_service.py:242-245 | The result for a smaller non-negative `top_k` is a prefix of the result for a larger one. |
| `FashionClipService.DefaultTopKCount` | src/backend/app/services/fashion_clip_service.py:218-245 | Under the default `top_k=10`, the ten best candidates come back, or all of them when there are fewer. |
| `AuthFormSchema.Utf16Length` | src/frontend/lib/utils.ts:5-9 | JavaScript's `.length`. It lies between the number of characters and twice that, and equals the number of characters when every character is in the Basic Multilingual Plane. |
| `AuthFormSchema.EmojiLength` | src/frontend/lib/utils.ts:8 | Two emoji are two characters but four code units. |
| `AuthFormSchema.Schema` | src/frontend/lib/utils.ts:3-10 | No contract. The object's keys are name, email, username and password, in that order. Under "sign-in", name and email are optional strings. Under any other type, name is `min(3)` and email is `z.email()`. Username is `min(3)` and password `min(8)` under every type. |
| `AuthFormSchema.Check` | src/frontend/lib/utils.ts:5-9 | A non-string value fails every rule with `invalid_type`. An optional string passes exactly when the value is absent or a string. `min(k)` passes exactly on a string of at least k code units. `z.email()` passes exactly on a string the e-mail check accepts. A string that is too short gives `TooSmall` with the rule's minimum, and a rejected e-mail gives `InvalidFormat`. `invalid_type` is raised exactly for a non-string, or an absent value under a required rule. |
| `AuthFormSchema.IssueOf` | src/frontend/lib/utils.ts:5-9 | A rule raises an issue exactly when its check fails. The issue names the rule's field and carries the check's kind. |
| `AuthFormSchema.IssuesAgainst` | src/frontend/lib/utils.ts:3-10 | The list holds at most one issue per rule. It is empty exactly when every rule passes. |
| `AuthFormSchema.IssuesAgainstConcat` | src/frontend/lib/utils.ts:3-10 | The issues of two consecutive rule lists are those of the first followed by those of the second, so issues come in rule order. |
| `AuthFormSchema.IssueSource` | src/frontend/lib/utils.ts:3-10 | Every issue reported is the issue of some rule, for that rule's field with that rule's kind. |
| `AuthFormSchema.IssuesAgainstComplete` | src/frontend/lib/utils.ts:3-10 | Every rule that fails contributes its issue to the list. |
| `AuthFormSchema.IssuesAgainstOnePerField` | src/frontend/lib/utils.ts:3-10 | When the rules name distinct fields, no two issues name the same field. |
| `AuthFormSchema.IssuesOnePerField` | src/frontend/lib/utils.ts:3-10 | The schema reports at most one issue per field. |
| `AuthFormSchema.EmptySignUpIssues` | src/frontend/lib/utils.ts:5-9 | An all-absent sign-up record gets exactly one `invalid_type` issue for each of name, email, username and password, in that order. |
| `AuthFormSchema.Issues` | src/frontend/lib/utils.ts:3-10 | No contract. This is the issue list of `authFormSchema(type).safeParse(record)`: `IssuesAgainst` for the type's schema. |
| `AuthFormSchema.Accepts` | src/frontend/lib/utils.ts:3-10 | No contract. The parse succeeds exactly when there are no issues. `AcceptsCharacterized` states which records that is. |
| `AuthFormSchema.AcceptsCharacterized` | src/frontend/lib/utils.ts:3-10 | The schema accepts exactly these records: a username of JavaScript length (UTF-16 code units) at least 3 and a password of length at least 8. Under "sign-in", name and email may be absent or strings. Under any other type, name is a string of length at least 3 and email is a string in e-mail format. |
| `AuthFormSchema.UsernameAndPasswordRequired` | src/frontend/lib/utils.ts:8-9 | Under every type, an accepted record has a username string of length ≥ 3 and a password string of length ≥ 8. |
| `AuthFormSchema.SignInNameAndEmailOptional` | src/frontend/lib/utils.ts:5-6 | Under "sign-in", name and email may each be absent or any string, including the empty string, without changing acceptance. |
| `AuthFormSchema.OtherTypesRequireNameAndEmail` | src/frontend/lib/utils.ts:5-6 | Under any type other than "sign-in", an accepted record has a name of at least 3 UTF-16 code units and an email that passes the e-mail check. |
| `AuthFormSchema.OnlySignInMatters` | src/frontend/lib/utils.ts:3-10 | Two types that agree on being "sign-in" build the same schema. |
| `AuthFormSchema.EmojiUsernameAccepted` | src/frontend/lib/utils.ts:8 | A username of two emoji is long enough under "sign-in", since its JavaScript length is 4. |
| `AuthFormSchema.SignInAcceptsMore` | src/frontend/lib/utils.ts:3-10 | A record accepted under any type is also accepted under "sign-in". |
| `Navbar.RenderNavItems` | src/frontend/src/app/components/navbar.tsx:49 | One link per item, in table order, each rendered from its own item. |
| `Navbar.RenderNavItem` | src/frontend/src/app/components/navbar.tsx:14-31 | Each link is keyed and linked by its path and shows its label as text and as the icon's alt. The icon is 30 by 30. When the pathname equals the path, it shows `/<icon>-light.svg` and the highlight classes. Otherwise it shows `/<icon>-dark.svg` and nothing after the base classes. |
| `Navbar.LightIconIffActive` | src/frontend/src/app/components/navbar.tsx:16 | The light icon is shown if and only if the pathname equals the item's path. |
| `Navbar.HighlightIffActive` | src/frontend/src/app/components/navbar.tsx:20-21 | The highlight class string is present if and only if the pathname equals the item's path. |
| `Navbar.AtMostOneActive` | src/frontend/src/app/components/navbar.tsx:9-16 | If items have distinct paths, no pathname makes two of them active. |
| `Navbar.ActiveIndex` | src/frontend/src/app/components/navbar.tsx:16 | A device for stating which item line 16 makes active. The component never searches for it. Returns an active item's index, or -1 exactly when no item's path equals the pathname. |
| `Navbar.NavItemsTable` | src/frontend/src/app/components/navbar.tsx:9-13 | The constant `NavItems` is Home `/`, About `/about`, My Account `/account`, in that order, with the icons home, file and account. The paths are distinct. |
| `Navbar.NavbarRendering` | src/frontend/src/app/components/navbar.tsx:9-49 | For every pathname the bar shows three links, to `/`, `/about` and `/account` in order, and at most one of them is highlighted. |
| `Navbar.NestedPathActivatesNone` | src/frontend/src/app/components/navbar.tsx:9-16 | The nested path `/account/new_listing` activates no item. |

## Left out

- Model loading and the encoder (`_load_model`, `encode_images`, `encode_text`): foreign library code. The encoder is a parameter that always returns. Encoder exceptions are not modelled.
- `generate_embedding`: a single `encode_images([image], batch_size=1)` call plus normalisation, both of which are foreign or floating point. It is not modelled.
- L2 normalisation, `similarity_score`, dot products and cosine similarity: floating-point arithmetic. Scores are abstract integers, so division by a zero norm and NaN ordering are not captured.
- `BatchProcess`: the rows are those before the optional normalisation step (lines 152-153).
- `np.concatenate` failing on rows of different widths is not modelled. The rows of every batch are joined as they are.
- Opening and decoding images and converting pixel data to RGB: PIL I/O. Loading is a parameter, and conversion only resets the mode tag.
- The source's `label` field of a navigation item is called `title`, since `label` is a Dafny keyword.
- `Utf16Length`: a string here is a sequence of Unicode scalar values, so a JavaScript string holding an unpaired surrogate cannot be represented.
- The `normalize=True` default of the service's constructor has no counterpart, since normalisation itself is left out.
- `get_embedding_dimension` returns the constant 512. It is not modelled, because rows are abstract and no modelled operation depends on their width.
- Logging: only the batch progress lines are recorded. The other log lines and the error logging before each re-raise are omitted.
- zod internals: the e-mail format rules are a parameter. Unknown keys and the parsed output object are not modelled, only acceptance and the issue list.
- The page components, the upload markup, the listing grid and the form components contain no logic beyond markup and input setters. They are not modelled.
