# fpl-shirts, modelled in Dafny

fpl-shirts is a browser extension for the Fantasy Premier League site. Its
content script downloads a CSV table of players. Each row gives a player's
web name, team and photo code. On every page the script walks the pitch
elements. When a pitch element shows the site's shirt icon and its name and
team match a row of the table, the icon's picture is replaced by that
player's photo from the Premier League CDN. The background script adds a
right-padding CSS rule to the pitch cards, chosen from the path of the page
that has just loaded.

The model has one module per concern:

- `Wrappers` (wrappers.dfy): `Option`, which stands for a JavaScript value
  that may be `undefined`.
- `Text` (text.dfy): the string operations the script relies on.
  - `split` on a one-character separator and its inverse `Join`.
  - `includes` (`Contains`) and `startsWith`.
  - `trim`, with the ECMAScript white-space and line-terminator set.
  - `toLowerCase` (`Lower`).
- `PlayerData` (player_data.dfy): how the CSV text becomes records.
  - Each line is split on `,`.
  - The first line gives the headers.
  - `Object.fromEntries` zips each later line with the headers. A repeated
    header keeps its last value, and a short row leaves `undefined`.
  - A failed download gives an empty list.
  - A record is a map from header to value. `Object.fromEntries` makes
    every entry an own property, and none of the keys the script reads
    (`Web_Name`, `Team_2024-25`, `Code`, `FPL_Name`) is on
    `Object.prototype`, so a map lookup gives exactly what the script reads.
- `Matcher` (matcher.dfy): the `playerData.find` predicate. It has three
  outcomes:
  - a row matches;
  - no row matches;
  - a `TypeError`, thrown when a row's name matches but the row has no
    `Team_2024-25` value.
- `Photo` (photo.dfy): the photo URL template, the `src` and the two
  `srcset` candidates.
- `ShirtPatch` (shirt_patch.dfy): one `replaceShirtImages` pass over an
  array of pitch-element slots, and `main`.
  - The pass is specified by the pure function `Pass`.
  - The in-place method `ReplaceShirtImages` is proved to compute `Pass`.
  - A `TypeError` ends the pass early. Slots already patched stay patched,
    and the later slots are untouched.
  - `main` installs the mutation observer only when the first pass did not
    throw.
- `CssRoute` (css_route.dfy): the `chrome.tabs.onUpdated` listener, which
  maps a tab update to the padding rule it inserts, if any.

The code hard-codes the `Team_2024-25` column and matches on "name contains"
and "team equals". The model follows the code.

## Model

| member | source | states |
|---|---|---|
| Text.Split | content.js:10 | `split` on a one-character separator gives one more piece than there are separators, so never zero pieces |
| Text.SplitPiecesFree | content.js:10 | no piece produced by `split` contains the separator |
| Text.JoinSplit | content.js:10 | joining the pieces with the separator gives back the original text |
| Text.SplitJoin | content.js:10 | splitting a join of separator-free pieces gives back those pieces |
| Text.SplitSnocSep | content.js:10 | a trailing newline adds exactly one empty line at the end |
| Text.ContainsOccurs | content.js:40 | `includes` is true exactly when the needle occurs at some index of the text |
| Text.TrimStartSpec | content.js:35 | the start-trimmed text is a suffix of the input, everything removed is white space, and it does not start with white space |
| Text.TrimEndSpec | content.js:35 | the end-trimmed text is a prefix of the input, everything removed is white space, and it does not end with white space |
| Text.TrimSpec | content.js:35 | `trim` gives a slice of the input with only white space around it and no white space at either end |
| Text.TrimEmpty | content.js:35 | `trim` gives the empty string exactly when the input is all white space |
| Text.Lower | content.js:40-41 | the modelled `toLowerCase` keeps the length of the string |
| Text.LowerSpec | content.js:40-41 | after `toLowerCase` no capital letter is left, text without capitals is unchanged, and applying it twice equals applying it once |
| PlayerData.ZipRecordSpec | content.js:13 | the record's keys are exactly the headers; for a header whose last occurrence is column `i`, its value is cell `i` of the row, or `undefined` when the row is shorter |
| PlayerData.ParsePlayerData | content.js:10-14 | there is one record per line after the header line, which is one per newline in the text |
| PlayerData.RecordField | content.js:10-14 | field `j` of record `i` is cell `j` of line `i + 1`, read under the last header with that name; every record has all the headers as keys |
| PlayerData.TrailingNewlineRecord | content.js:10-14 | a text ending in a newline yields a final record in which the first header maps to "" and every other header maps to `undefined` |
| PlayerData.FetchPlayerData | content.js:4-19 | a failed download gives no records; a received text gives one record per newline |
| Matcher.Check | content.js:39-41 | a row is a hit exactly when both its name and its team match; it throws exactly when its name matches and it has no team; a row without `Web_Name` never matches or throws |
| Matcher.FindPlayerSound | content.js:38-42 | a found player is a record of the data that matches both name and team; nothing is found exactly when every row misses; a throw comes from a row that throws |
| Matcher.FindPlayerFirst | content.js:38-42 | `find` stops at the first row that does not miss: it returns that row on a hit, or throws |
| Matcher.FoundIsFirst | content.js:38-42 | the row found is the first one that matches both name and team |
| Matcher.FindPlayerComplete | content.js:38-42 | when a row matches both name and team and no earlier row throws, a player is found |
| Photo.PhotoUrlParts | content.js:51-53 | a photo URL is the CDN prefix, the size and "/p", then the code, then ".png", and the code can be read back from it |
| Photo.PhotoUrlInjective | content.js:51-53 | two photo URLs of the same size are equal only when their codes are equal |
| Photo.PhotoTemplates | content.js:51-53 | `src` is the 110x140 URL of the player's `Code`; `srcset` lists that URL at 110w and the 250x250 URL at 250w, in that order |
| Photo.SrcDistinguishesCodes | content.js:51 | players with different codes get different `src` URLs |
| ShirtPatch.ProcessSlot | content.js:24-62 | the callback's outcome, proved from the lookup: a slot without a shirt image or a name element is skipped; otherwise, with the trimmed name and the shirt's alt text as team, a write installs the photo (no shirt class, `src` from `Code`) of a record in the data matching both name and team, a throw comes from a record whose name matches but whose team is missing, and the slot is skipped exactly when every record misses |
| ShirtPatch.RunStopsAt | content.js:24-63 | the `forEach` applies outcomes in order up to the first throw; it reports an abort exactly when it stopped early, and leaves every later slot as it was |
| ShirtPatch.PatchedIsSkipped | content.js:25-60 | a slot that has been written no longer has a shirt image, so its callback skips it |
| ShirtPatch.RunEffects | content.js:24-63 | every slot keeps its value or gets its callback's outcome; only writes change a slot; the run aborts exactly when some outcome is a throw; without one, every slot gets its outcome |
| ShirtPatch.PassEffects | content.js:22-64 | every slot of a pass is unchanged or patched; a changed slot shows no shirt; the pass aborts exactly when some callback throws; without a throw, every slot is patched |
| ShirtPatch.PassIdempotent | content.js:22-74 | running the pass again on its own result changes nothing, so the re-run its own writes trigger, with no other change to the page, writes nothing |
| ShirtPatch.SettledAfterCompletePass | content.js:22-74 | after a pass that did not throw, a second pass skips every slot |
| ShirtPatch.ReplaceShirtImages | content.js:22-64 | the loop over the slot array leaves exactly the slots of `Pass` on the old contents, and reports whether a callback threw |
| ShirtPatch.Start | content.js:67-77 | with no data nothing changes and no observer is installed; with data, one pass runs and the observer is installed exactly when that pass did not throw |
| CssRoute.RuleForSpec | background.js:1-40 | before the page is loaded nothing is inserted; once it is loaded, "/my-team" and "/entry/…" get 12px, "/transfers" gets 0px, and every other path gets nothing |

## Left out

- The download itself (content.js:6-9) is not modelled. It becomes an input that is either the response text or `None` for any failure that the `catch` turns into `[]`.
- The `MutationObserver` (content.js:72-76) is not modelled as an object. Each callback is another `replaceShirtImages` pass over the same data, and `PassIdempotent` and `SettledAfterCompletePass` state what a re-run on an unchanged page does.
- A pitch element is modelled as a `Slot` value in an array, not as a DOM node.
  - The model has no aliasing and no nesting between pitch elements.
  - Its picture holds one image, and the name element contributes only its text content.
  - `shirtElement.closest("picture") || shirtElement.parentElement` always exists for an image inside an element, so the model always finds a target.
  - Writing `innerHTML` replaces that slot's image.
- The literal HTML written by the script is not modelled: the wrapper `div`, the `style` and `sizes` attributes, and the white space inside `srcset`. The photo is modelled by its `src`, its `alt` and its list of `srcset` candidates.
- `alt="${player.FPL_Name}"` is inserted without HTML escaping. The model keeps the raw value and does not model how a browser would parse a name that contains a quote.
- Text.Lower: JavaScript's `toLowerCase` is modelled only for Basic Latin and Latin-1 capitals. Other scripts and the special multi-character mappings are left unchanged in the model.
- `console.error` on a failed CSS insertion, `chrome.runtime.lastError` and `chrome.tabs.insertCSS` itself (background.js:7-37) are not modelled. The model returns the rule that would be inserted.
- `new URL(tab.url)` is not modelled. Its `pathname` is an input to `RuleFor`, and `None` stands for a URL that the constructor rejects.
- Rejection of `main`'s promise after a `TypeError` is modelled only as "no observer is installed".
