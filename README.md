# MR helper bot: the review pipeline, modelled in Dafny

The bot takes a GitLab merge-request link from a private Telegram chat and sends back
an AI review of that merge request. Between the chat loop and its two HTTP
collaborators sit three pure transformations, all in `main.go`. This project models
those three and proves properties about them:

- **Link parser** (`parseUrlMr`): splits the message on `/-/merge_requests/`. The id
  text is what follows up to the next `/`. The project path is what follows
  `https://{domain}/`. The id is converted with `strconv.Atoi`. Module
  `MergeRequestUrl` models it. `GoStrings` models `strings.Index`, `strings.Split`
  and `strings.Join`. `GoStrconv` models `strconv.Atoi` and `strconv.Itoa`.
- **Diff aggregator** (`getChangesFromMR`): folds the `(NewPath, Diff)` pairs that GitLab
  returns into one text. Each file contributes `"Файл: %s\n Изменения:\n%s\n"`, in the
  order the API returned the files. Module `DiffAggregator` models it. The fold is a
  method with a loop, proved against the recursive function `Aggregate`.
- **Review requester** (`askAi`): builds the request, which holds the model name and
  exactly two messages: the fixed system instruction, then the diff as the user's
  message. It then reads the first choice's content out of the response. Module
  `ReviewRequester` models it.

Configuration that the Go code reads from the environment is passed as a parameter:
the GitLab domain and the model name. The two network calls are parameters too.
GitLab's diff listing is a function `(string, int) -> FetchResult`. The AI endpoint is
a function `Request -> PostResult`.

`parseUrlMr` has four outcomes, in the order the code meets them:

1. If the marker is missing, it returns `("", -1, error)`.
2. If the text before the first marker has no `https://{domain}/`, line 78 indexes past
   the end of a one-element slice. That is a runtime panic, modelled as the outcome
   `Panicked`.
3. If `Atoi` refuses the id text, it returns `("", -1, error)`.
4. Otherwise it returns the path, the number and no error.

`Atoi` is modelled for a 64-bit `int`. It accepts an optional sign, one or more ASCII
digits and values in the signed 64-bit range, so negative ids parse.

Bad links are meant to be refused with an error, as lines 73-75 and 81-83 do. Some
behaviours of the code depart from that or are easy to misread. The model keeps
them as written:

- A link whose text before the marker lacks `https://{domain}/` is not refused. Line 78
  panics instead. This is listed as a finding below.
- A negative id such as `-3` is accepted, because `Atoi` takes a sign.
- An id followed by a query string (`42?x=1`) is not read as 42. `Atoi` refuses the
  whole text, so the numeric-id error is returned.
- The project path may be empty. `https://d//-/merge_requests/1` under the domain `d`
  gives `("", 1, nil)`. Nothing checks the path before it is returned.
- A returned project path never contains `https://{domain}/`, because it is one piece of
  the split on that prefix.

## Model

| member | source | states |
|---|---|---|
| `GoStrings.Index` | main.go:71 | The result is -1, or a position at which the whole separator fits inside the text. `IndexFirst` shows it is the first occurrence. |
| `GoStrings.IndexFirst` | main.go:71 | `strings.Index` returns -1 exactly when the separator does not occur. Otherwise it returns a position where it occurs, and no earlier position holds an occurrence. |
| `GoStrings.Split` | main.go:71-78 | A split always has a first piece, so the `[0]` of lines 77-78 never panics. `SplitSeveral`, `SplitFree`, `JoinSplit` and `SplitPiecesFree` give what the pieces are. |
| `GoStrings.SplitSeveral` | main.go:71-73 | `strings.Split` gives at least two pieces exactly when the separator occurs, which is the test of line 73. |
| `GoStrings.SplitFree` | main.go:78 | A text that does not contain the separator splits into exactly one piece, itself. This is the one-piece split that line 78 indexes past. |
| `GoStrings.JoinSplit` | main.go:71 | Joining the pieces of a split with the separator gives back the original text. |
| `GoStrings.SplitPiecesFree` | main.go:71 | No piece of a split contains the separator. |
| `GoStrings.SplitAfter` | main.go:71 | When the first occurrence of the separator follows `x`, splitting `x + sep + rest` gives `x`, then the pieces of `rest`. |
| `GoStrings.SplitCharFirst` | main.go:77 | The first piece of a split on `/` is the text before the first `/`, as read character by character. |
| `GoStrings.TakeUntilCut` | main.go:77 | Cutting a text where a `/` stands does not change the text before its first `/`. |
| `GoStrconv.Atoi` | main.go:80 | A successful conversion lies in the 64-bit range. The empty text is refused, and so is any text holding a `/`. The lemmas below give the rest of its behaviour. |
| `GoStrconv.AtoiItoa` | main.go:80 | `Atoi` reads back every 64-bit integer that `Itoa` writes, negative ones included. |
| `GoStrconv.AtoiRefuses` | main.go:80-83 | Any character that is not a digit makes `Atoi` refuse the text, unless it is a sign in the first position. So `42?x=1` and letters are refused. |
| `GoStrconv.AtoiValue` | main.go:80 | For an optional sign followed by one or more digits, `Atoi` gives the signed value of the digits when it fits in 64 bits, and refuses the text otherwise. Leading zeros and a `+` are read. |
| `GoStrconv.AtoiOverflow` | main.go:80-83 | Digits whose value is above `MaxInt`, or whose negation is below `MinInt`, are refused, with or without a sign. |
| `GoStrconv.AtoiExamples` | main.go:80-83 | `42?x=1`, a lone `-` or `+`, and the empty text are refused. `-3` gives -3, `+42` gives 42 and `007` gives 7. |
| `MergeRequestUrl.DomainPrefix` | main.go:78 | The prefix has 9 more characters than the domain: `https://`, then the domain, then a closing `/`. |
| `MergeRequestUrl.ParseUrlMr` | main.go:67-86 | Every error return carries `("", -1)`. A successful id lies in the 64-bit range, and a returned path never contains `https://{domain}/`. The marker-missing error is returned if and only if the text lacks `/-/merge_requests/`. |
| `MergeRequestUrl.FromPieces` | main.go:78-85 | Once the link's two pieces are known, the only error left is the numeric-id error, with `("", -1)`. A successful id is in range, and the path it returns does not contain `https://{domain}/`. |
| `MergeRequestUrl.LinkPieces` | main.go:71-77 | The outcome depends only on the text before the first marker and on the id text. The id text is what follows the first marker up to the first `/`, even when a second marker follows. |
| `MergeRequestUrl.FirstPieceId` | main.go:77 | Cutting at the next marker before cutting at `/` changes nothing, because the marker starts with `/`. |
| `MergeRequestUrl.PanicsExactly` | main.go:78 | The parser panics if and only if the marker is present and the text before it lacks `https://{domain}/`. |
| `MergeRequestUrl.IdTextDecides` | main.go:77-85 | With the marker and the domain prefix present, the numeric-id error is returned if and only if `Atoi` refuses the id text. Otherwise the number is the id text's value. |
| `MergeRequestUrl.TakeUntilExact` | main.go:77 | The text before the first `/` of `id + "/" + rest` is `id` when `id` has no `/`. |
| `MergeRequestUrl.TrailingTextIgnored` | main.go:77 | Text after the `/` that ends the id (such as `/diffs`) never changes the outcome. |
| `MergeRequestUrl.TrailingPieces` | main.go:71-77 | For `head + marker + id + "/" + rest`, the two pieces read are `head` and `id`. |
| `MergeRequestUrl.ParseRoundTrip` | main.go:67-86 | A link `junk + https://{domain}/ + path + marker + Itoa(n) + suffix` parses to `(path, n, nil)` under three conditions. No `https://{domain}/` starts inside `junk`. `path` holds no `https://{domain}/`. No marker starts before the one after `path`. It holds for any 64-bit `n` and for a suffix that is empty or starts with `/`. Text before the prefix is discarded. |
| `MergeRequestUrl.ParseExample` | main.go:67-86 | `https://gitlab.example.com/group/proj/-/merge_requests/42/diffs` parses to `("group/proj", 42, nil)`. |
| `MergeRequestUrl.EmptyPathAccepted` | main.go:78-85 | `https://d//-/merge_requests/1` under the domain `d` is accepted with the empty project path: `("", 1, nil)`. |
| `MergeRequestUrl.NotALinkExample` | main.go:70-75 | `"not a url"` gives `("", -1, error)`. |
| `MergeRequestUrl.ForeignHostPanics` | main.go:78 | A merge-request link on another host makes the parser panic rather than return an error. |
| `MergeRequestUrl.ParseUrlMrChecked` | main.go:78 | The parser with the missing length check added never panics. Where `ParseUrlMr` panics, it returns the missing-prefix error with `("", -1)`. Everywhere else it agrees with `ParseUrlMr`. |
| `DiffAggregator.Entry` | main.go:108 | One file's text is 20 characters longer than its path and patch together, and ends in a newline. |
| `DiffAggregator.EntryFields` | main.go:108 | In one file's text, `Файл: ` comes first, the path right after it, and the patch right before the closing newline. |
| `DiffAggregator.Aggregate` | main.go:106-109 | The aggregate of the files is empty if and only if there are no files. Otherwise it ends in a newline. |
| `DiffAggregator.GetChangesFromMR` | main.go:88-111 | A failed client or listing gives `""` and an error. Otherwise the loop builds exactly `Aggregate` of the returned list, with no error, so an empty list gives `""`. |
| `DiffAggregator.AggregateAppend` | main.go:106-109 | Aggregating `A + B` is aggregating `A`, then `B`. |
| `DiffAggregator.AggregateAt` | main.go:106-109 | No reordering: the entry of file `i` stands between the entries of the earlier files and those of the later ones. |
| `DiffAggregator.AggregateOneFile` | main.go:108 | One file `a.go` with patch `X` gives exactly `"Файл: a.go\n Изменения:\nX\n"`. |
| `ReviewRequester.BuildRequest` | main.go:141-153 | The request carries the model name and exactly two messages, in this order: the system role with the fixed instruction, then the user role with the body. |
| `ReviewRequester.RequestCarriesBody` | main.go:141-153 | Two requests are equal if and only if they have the same model name and the same body. The body is carried verbatim, the empty body included. |
| `ReviewRequester.ExtractReply` | main.go:166-174 | A reply without error is returned if and only if the response decoded with at least one choice. Its text is the first choice's content. Every error comes with `""`. The no-choices error is returned if and only if the choice list is empty. |
| `ReviewRequester.AskAi` | main.go:115-174 | The reply is the first choice the endpoint returns for `BuildRequest(model, body)`. A transport failure, or a response without choices, gives `""` and an error. The no-choices error is returned if and only if the response has no choices. |
| `ReviewRequester.LaterChoicesIgnored` | main.go:170-171 | Only the first choice matters. Choices after it never change the reply. |
| `ReviewRequester.ReplyExamples` | main.go:170-174 | An empty `choices` gives the no-choices error. A single choice `"ok"` gives `"ok"`. |

## Findings

| source | as written | input that shows it | evidently intended | confidence | as-written member | corrected member |
|---|---|---|---|---|---|---|
| main.go:78 | `strings.Split(url_MR[0], "https://{domain}/")[1]` is taken without checking that the split has a second piece | `https://github.com/a/b/-/merge_requests/1` with domain `gitlab.example.com`: the index is out of range and the panic ends the bot's update loop | refuse the link with an error, as lines 73-75 and 81-83 do | high; not executed | `MergeRequestUrl.ParseUrlMr`, `MergeRequestUrl.ForeignHostPanics` | `MergeRequestUrl.ParseUrlMrChecked` |

## Left out

- The Telegram update loop, the private-chat filter, sending the reply and its Markdown parse mode (main.go:23-64). These are chat I/O.
- The chaining of the three stages at main.go:40-53 is not modelled. Each stage runs even when the previous one failed, and gets the failed stage's `("", -1)` or `""`. The modelled outcomes show what those values are.
- `init`, `godotenv` and every `os.Getenv` read (main.go:17-21, 68, 89-91, 135-137). The values become parameters.
- GitLab client construction and the `ListMergeRequestDiffs` request (main.go:93-99). Only their result is modelled, as `FetchResult`.
- The resty POST, its headers, the bearer token, and JSON encoding and decoding, including `omitempty` (main.go:139, 155-164). Only the result is modelled: a transport error or the decoded choices.
- The text of the error messages, including the `%v` of the nil `err` at main.go:74, and all logging. The model records only which error was returned.
- `GoStrings.Split` requires a non-empty separator. Go's rune-by-rune split on `""` is not modelled, because every call in `main.go` passes a non-empty literal or `https://{domain}/`.
- Go strings are byte sequences, while the model uses `seq<char>`. Splitting, prefix search and concatenation give the same pieces on the valid UTF-8 text that Telegram and GitLab deliver. Byte offsets are not modelled.
- `GoStrconv.Atoi` assumes a 64-bit platform, where `int` has 64 bits. The 32-bit range is not modelled.
