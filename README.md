# Sharuco snippet card: a Dafny model

Sharuco is a code-snippet sharing site. Each snippet is shown in a card
(`CardCode`, components/card-code.tsx). Most of the card is rendering and
calls to a hosted document store. The card also holds a few exact rules,
and this project models them as pure Dafny functions with lemmas:

- **Favourites toggle** (`addCodeOnFavoris`). The signed-in user presses the
  star. If their handle (`pseudo`) is in the snippet's favourites list, every
  occurrence is filtered out. Otherwise it is appended. The old list is never
  mutated. Modules `Favourites` (favourites.dfy) and `Visibility` (visibility.dfy).
- **Avatar initials**. The author's display name is split on `" "` with
  JavaScript `split` semantics. Two characters are taken from the first one or
  two words. Module `Initials` (initials.dfy). It models the expression with the
  values JavaScript really produces: indexing past the end of a string gives
  `undefined`, and `+` either concatenates or gives `NaN`. So the model is
  total, and no precondition is needed.
- **Share URL and comment link**. Module `ShareLinks` (share.dfy).
- **Which controls the card shows**: the toggle button or the login dialog,
  the filled star, the share dialog, and the comment link. Module `Visibility`.

`Wrappers` (wrappers.dfy) holds the `Option` type. It stands for a signed-in
user, a query parameter that may be absent, and a URL that may not parse.

The `filter` at components/card-code.tsx:102 removes every occurrence of
`pseudo`, not only the first, and the model does the same.

## Model

| member | source | states |
|---|---|---|
| `Favourites.Without` | components/card-code.tsx:102 | the filtered list never contains `pseudo` and contains nothing that was not in the input |
| `Favourites.WithoutCounts` | components/card-code.tsx:102 | the filter keeps every other handle as often as the input has it, and the length drops by the number of occurrences of `pseudo` |
| `Favourites.WithoutIsSubsequence` | components/card-code.tsx:102 | the handles the filter keeps stay in their original relative order |
| `Favourites.WithoutIsUnique` | components/card-code.tsx:102 | the filter is the only order-preserving sublist that drops `pseudo` and keeps every other handle's count, so it equals an independent description of `filter` |
| `Favourites.WithoutAbsent` | components/card-code.tsx:102 | filtering a list that lacks `pseudo` returns it unchanged |
| `Favourites.WithoutConcat` | components/card-code.tsx:102 | filtering a concatenation filters each part |
| `Favourites.Toggle` | components/card-code.tsx:100-104 | membership of `pseudo` flips; every other handle keeps its count, and so its membership; when `pseudo` was present the result is an order-preserving sublist with all its occurrences gone; when it was absent the result is the old list followed by `pseudo`, one longer |
| `Favourites.ToggleTwiceRestores` | components/card-code.tsx:101-103 | from a list without `pseudo`, two toggles give back exactly the original list |
| `Favourites.ToggleTwice` | components/card-code.tsx:101-103 | two toggles give the list back if and only if `pseudo` was absent, or occurred once as the last element; otherwise they give the filtered list with a single `pseudo` at the end |
| `Initials.Split` | components/card-code.tsx:294 | `split(" ")` always yields at least one word, and no word contains a space |
| `Initials.JoinSplit` | components/card-code.tsx:294 | joining the words with single spaces gives back the name, so the split loses nothing, empty words included |
| `Initials.SplitJoin` | components/card-code.tsx:294 | splitting space-free words joined by single spaces gives back those words |
| `Initials.SplitNoSpace` | components/card-code.tsx:294 | a name without a space splits into itself alone |
| `Initials.SplitConcat` | components/card-code.tsx:294 | a space splits a name into the words before it followed by the words after it |
| `Initials.SplitChars` | components/card-code.tsx:294 | a non-space character is in the name exactly when it is in one of the words |
| `Initials.CharAt` | components/card-code.tsx:295-298 | `w[i]` is a one-character string exactly when `i` is inside `w`, and `undefined` otherwise |
| `Initials.Plus` | components/card-code.tsx:295-298 | JavaScript `+` gives a string, the concatenation of both sides' text, exactly when one side is a string, and `NaN` otherwise |
| `Initials.InitialsAsWritten` | components/card-code.tsx:294-298 | the initials are a two-character string if and only if the name is well formed (one word of at least two characters, or non-empty first and second words), and then contain no space |
| `Initials.InitialsOfOneWord` | components/card-code.tsx:294-296 | a space-free name of at least two characters gives its first two characters |
| `Initials.InitialsOfTwoWords` | components/card-code.tsx:297-298 | two non-empty words give the first character of each |
| `Initials.InitialsIgnoreLaterWords` | components/card-code.tsx:294-298 | once a name has two words, appending more words does not change the initials |
| `Initials.InitialsJunk` | components/card-code.tsx:294-298 | the names `"A"`, `""` and `"A  B"` are shown as `Aundefined`, `NaN` and `Aundefined` |
| `Initials.InitialsCorrected` | components/card-code.tsx:294-298 | at most two characters, all non-space characters of the name; empty exactly when the name is only spaces; equal to the as-written initials on every well-formed name; on every name, equal to the as-written initials of the name with its empty words removed (a one-letter single word gives that letter) |
| `ShareLinks.ShareUrl` | components/card-code.tsx:83 | the share URL starts with `https://sharuco.lndev.me/code-preview/` and the rest of it is the snippet id |
| `ShareLinks.CommentHref` | components/card-code.tsx:342 | the comment link is `/code-preview/` followed by the snippet id |
| `ShareLinks.SnippetIdOf` | components/card-code.tsx:83 | an id is read from a URL exactly when the URL has the share prefix, and the share URL of that id is the URL |
| `ShareLinks.ShareUrlRoundTrip` | components/card-code.tsx:83 | the id can be read back from its share URL, so two snippets never share a URL |
| `ShareLinks.ShareUrlIsCommentPageOnSite` | components/card-code.tsx:83 | the share URL is the comment link's page on `https://sharuco.lndev.me` |
| `Visibility.CardControls` | components/card-code.tsx:124-336 | the toggle button appears exactly for a signed-in user and the login dialog otherwise; both show the favourites count; the star is filled exactly when the user's handle is a favourite; the share dialog appears exactly for a public snippet; the comment link appears exactly for a public snippet without a `code-preview` parameter |
| `Visibility.PrivateHidesSharing` | components/card-code.tsx:194-336 | a private snippet shows neither the share dialog nor the comment link, whatever the other inputs |
| `Visibility.CommentLinkNeedsShare` | components/card-code.tsx:194-336 | the comment link is never shown without the share dialog |
| `Visibility.PressFavourite` | components/card-code.tsx:124-128 | pressing the favourite control writes a list exactly when a user is signed in; that list is the toggled list, so the user's membership flips and every other handle keeps its count |
| `Visibility.PressFlipsStar` | components/card-code.tsx:130-148 | after the written list comes back, the star flips, and the count rises by one or drops by the user's occurrences |
| `Visibility.PressTwiceRestores` | components/card-code.tsx:99-107 | two presses from a list without the user write back the original list |

## Left out

- The write-back through `updateCodeDocument` and the `useDocument` fetches of the author and the snippet are calls to the hosted document store. The model computes the list that is written and stops there.
- Two favourite toggles from different devices can race, since each writes back a whole list. The card only warns about this with a toast. It is a concurrency issue and is not modelled.
- firebase/firestore/updateUserDocument.js is a wrapper over the store's update call plus cache invalidations under fixed names. It has no logic of its own and is not part of this model.
- JSX layout, toasts, `copyToClipboard`, syntax highlighting, GitHub login, the `react-share` buttons and their message texts are user interface and third-party code. They are not modelled.
- `language.toLowerCase()` is Unicode case mapping done by the runtime. It is not modelled.
- The tag row (shown when `tags` is non-empty) and the certified badge are plain rendering. They are not modelled.
- Initials.InitialsAsWritten: a character is a Dafny `char` (a Unicode scalar value). JavaScript indexes UTF-16 code units, so a name starting with a character outside the Basic Multilingual Plane is not modelled exactly.
- Initials.InitialsAsWritten: a display name that is not a string (missing or `null`) would make `split` throw. The model takes a string.
- Visibility.CardControls: the signed-in user is modelled as the handle alone. A user object without a screen name is not modelled.

## Findings

| source | as written | input that shows it | evidently intended | confidence | as-written member | corrected member |
|---|---|---|---|---|---|---|
| components/card-code.tsx:294-298 | the initials index the first word at 1, or the second word at 0, without checking that those characters exist | display name `"A"` shows `Aundefined`; `""` shows `NaN`; `"A  B"` (two spaces) shows `Aundefined` | up to two initials taken from the non-empty words, never the text `undefined` or `NaN` | high, not executed | `Initials.InitialsJunk` | `Initials.InitialsCorrected` |
