# Automatic Memory dashboard: answer handling

Automatic Memory is a small Flask site. The user names a video game; the `submit` route asks a
hosted language model where the game can be played and redirects to the `dashboard` route with the
model's raw answer in the `response_text` query parameter. This project models what `dashboard`
does with that answer (`app.py`, lines 21-37):

1. read `response_text`, defaulting to `""` when it is absent;
2. clean it with `` lstrip("```json").rstrip("`").strip() ``;
3. decode it with `json.loads`, except that empty text stands for an empty dictionary;
4. `pop("game_name", "")` out of the dictionary, leaving the console-to-crossplay entries;
5. answer a `json.JSONDecodeError` with the fixed message "Automatic Memory does not recognise that game."

Files and modules:

- `Json.dfy` (`Json`): decoded JSON values, `Loaded` for what a call of `json.loads` does, and `Option`
  for the query parameter, which may be absent.
- `Strip.dfy` (`Strip`): Python's `lstrip`, `rstrip` and argument-less `strip()` on `str`. The `chars` argument is a
  set of characters (`Chars.Given`), or whitespace when omitted (`Chars.Whitespace`). `LeadRun` and
  `TrailRun` measure the run each method drops.
- `Cleanup.dfy` (`Cleanup`): the chained cleanup of line 25 and what it keeps and eats.
- `PyDict.dfy` (`PyDict`): `dict.pop(key, default)`, both as a function on maps and as a method of a
  `Dict` class whose entries change in place.
- `App.dfy` (`App`): the route. `Respond` is its meaning as a function. `Dashboard` is the handler as
  it runs, with `pop` changing the dictionary in place, and is proved equal to `Respond`. The lemmas
  state the route's properties.

`json.loads` is a parameter `loads: string -> Loaded`. `Loaded(v)` means it returned `v`,
`DecodeError` means it raised `json.JSONDecodeError`, and `Raised` means it raised any other
exception (a `RecursionError` on deeply nested input, say). The route depends on it only through
the cleaned text.

What the code does, in the places where it is easy to misread:

- The cleanup strips character sets, not fence tokens, so genuine leading `` ` ``, `j`, `s`, `o`, `n`
  content is eaten (`CleanDropsLeadingFenceChar`, `CleanEatsNull`).
- A fenced object and the same object bare give the same outcome (`FencedAndBareAgree`), but one
  cleanup pass is not idempotent in general (`CleanNotIdempotent`).
- The decoded answer stays a dictionary. A missing `game_name` defaults to `""`, and there is one
  error message.
- A decoded list, string, number, boolean or null reaches `.pop(...)`, which raises an exception the
  handler does not catch (`Outcome.Uncaught`). So does any exception from `json.loads` other than
  `json.JSONDecodeError`.

## Model

| member | source | states |
|---|---|---|
| `Strip.LeadRun` | app.py:25 | `lstrip(chars)` drops the longest prefix of characters in `chars`: every dropped character is in the set, and the first kept one is not |
| `Strip.TrailRun` | app.py:25 | `rstrip(chars)` drops the longest suffix of characters in `chars`: every dropped character is in the set, and the last kept one is not |
| `Strip.StripWs` | app.py:25 | the result of `strip()` neither starts nor ends with whitespace |
| `Strip.StripWsSubstring` | app.py:25 | `strip()` keeps one contiguous piece of its input, with only whitespace before and after it |
| `Strip.StripWsEmpty` | app.py:25 | `strip()` gives "" exactly when the input is all whitespace |
| `Strip.LStripSplit` | app.py:25 | after a run of `chars`, `lstrip` keeps exactly the text that starts with a character outside `chars` |
| `Strip.RStripSplit` | app.py:25 | before a run of `chars`, `rstrip` keeps exactly the text that ends with a character outside `chars` |
| `Strip.StripWsSplit` | app.py:25 | `strip()` of whitespace + body + whitespace is the body, when the body has no whitespace at its ends |
| `Cleanup.Clean` | app.py:25 | the cleaned text is no longer than the input and neither starts nor ends with whitespace |
| `Cleanup.CleanSlice` | app.py:25 | the cleaned text is a slice of the input that starts no earlier than the end of the leading fence-character run |
| `Cleanup.CleanSubstring` | app.py:25 | the cleanup only removes characters from the two ends |
| `Cleanup.CleanDropsLeadingFenceChar` | app.py:25 | text starting with `` ` ``, `j`, `s`, `o` or `n` always loses that first character |
| `Cleanup.CleanEatsNull` | app.py:25 | the bare JSON literal `null` cleans to `ull` |
| `Cleanup.CleanTrims` | app.py:25 | fence characters + whitespace + body + whitespace + backticks cleans to exactly the body; whitespace between the body and an end stops that end's fence strip |
| `Cleanup.CleanKeepsBareObject` | app.py:25 | text that starts with `{` and ends with `}` is returned unchanged |
| `Cleanup.CleanFencedObject` | app.py:25 | a JSON object inside an opening fence such as `` "```json" ``, optional whitespace, and closing backticks cleans to exactly the object |
| `Cleanup.CleanKeepsSecondFence` | app.py:25 | in `` "```json\n```json{...}" `` the newline stops the opening strip, so one pass leaves `` "```json{...}" `` |
| `Cleanup.CleanNotIdempotent` | app.py:25 | `` "```json\n```json{...}" `` cleans to `` "```json{...}" ``, and cleaning that again gives `"{...}"` |
| `Cleanup.CleanKeepsFenceAfterLeadingNewline` | app.py:25 | a newline before the opening fence leaves the fence in the cleaned text |
| `Cleanup.CleanKeepsFenceBeforeTrailingNewline` | app.py:25 | a newline after the closing fence leaves the fence in the cleaned text |
| `PyDict.PopFrom` | app.py:31 | `pop` returns the value under the key, or the default when the key is absent, and leaves every other key with its value |
| `PyDict.PopRestore` | app.py:31 | putting the popped entry back restores the dictionary; popping an absent key changes nothing |
| `PyDict.Dict.Pop` | app.py:31 | the in-place `pop` returns what `PopFrom` returns and leaves the entries `PopFrom` leaves |
| `App.Dashboard` | app.py:21-37 | the handler, with `pop` mutating the decoded dictionary, produces exactly the outcome `Respond` defines |
| `App.EmptyAnswerRendersEmptyDashboard` | app.py:22-31 | an absent parameter, or one that cleans to "", renders game name "" and an empty dictionary without consulting the decoder |
| `App.DecoderSeesCleanedText` | app.py:25-28 | the decoder is applied to the cleaned text only |
| `App.FailsExactlyOnDecodeError` | app.py:28-37 | the error outcome occurs exactly when decoding non-empty cleaned text raises `JSONDecodeError`, and it carries the fixed message |
| `App.RenderedSplitsDecodedObject` | app.py:28-32 | a decoded object renders as its `game_name` value (or "") and the rest, which lacks `game_name` and equals the object once the name is put back |
| `App.NonObjectIsUncaught` | app.py:28-34 | an exception escapes the handler exactly when the decoder raises something other than `JSONDecodeError` or decodes to a value that is not an object |
| `App.FencedAndBareAgree` | app.py:25-28 | a fenced JSON object and the same object bare lead to the same outcome |

## Left out

- Flask routing, the `request` object, `render_template`, and the `redirect`/`url_for` transport of
  the answer: the route's input is the query parameter as an `Option<string>`, and its output is an
  `Outcome` naming what would be rendered.
- The `submit` route: the prompt text, the Gemini client, `generate_content`, and its catch-all
  `except Exception`. These are a call to an external service, so the model starts from the answer text.
- `load_dotenv`, the `API_KEY` environment lookup, client construction, and `app.run`: environment and process setup.
- The internals of `json.loads`: it is the `loads` parameter. Which inputs make it return, raise
  `JSONDecodeError` or raise something else is not modelled, only what the route does in each case.
- The key order of the decoded dictionary: `PyDict.Dict.entries` and `Outcome.Rendered.consoles` are
  Dafny maps, so the model does not capture that `pop` keeps the remaining consoles in insertion
  order, or the order in which the template receives them.
- JSON numbers are kept as their literal text. No floating point is modelled.
- What the web framework does with the uncaught exception of `Outcome.Uncaught` (a server error page).
- Exceptions raised by `render_template` inside the `try` block: templating is not modelled.
- Whitespace for `strip()` is the set of code points for which Python 3's `str.isspace()` holds,
  written out in `Strip.IsSpace`. It is not derived from a Unicode database.
