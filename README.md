# A verified model of the Sambanova unofficial API client core

The Python client `sambanova_unofficial_api.py` sends chat and vision
prompts to a completion endpoint. It reads back the server-sent-event
(SSE) stream that the endpoint returns. This project covers the parts of
the client that have behaviour and proves properties of them:

- **The stream decoder**, `BaseAPIClient._process_response`
  (`stream_decoder.dfy`). It walks the response lines in order. It skips
  empty lines and lines without the `data:` prefix. It stops at the first
  line whose stripped text is `data: [DONE]`. It parses every other
  `data:` line as JSON and skips the line when decoding fails. It appends
  each non-empty `choices[0].delta.content` and keeps the last `usage`.
  - The source loop is the method `ProcessResponse`. Its postcondition ties
    the result to the function `Decode`.
  - `Decode` is proved equal to `Expected`, an independent description of
    the result: the concatenation of the live fragments' contents and the
    usage of the last one that has the key.
  - Lemmas cover the sentinel cut-off, the irrelevance of ignored and
    malformed lines, and content that only grows.
- **Python's `str.strip`** (`strings.dfy`), with the whitespace set of
  `str.isspace`, as used in the sentinel test.
- **Model-catalog gating**, `BaseModelConfig.__init__` with the chat and
  vision catalogs (`models.dfy`).
- **Payload shaping**, `ChatAPI._build_payload` and
  `VisionAPI._build_payload` (`payload.dfy`). Each builder is a function
  into a structured record. Each is paired with a function that reads its
  inputs back from the body it built.
- **Base64** as in section 4 of RFC 4648 (`base64.dfy`), which the vision
  builder uses for the image. The source only encodes. The model adds a
  decoder as the encoder's inverse, so that the round trip can be proved.

JSON decoding is not modelled. The decoder takes a parameter
`parse: string -> Parsed<U>` that classifies the text after `data:` in one
of three ways:

- `Malformed`: `json.loads` raised `JSONDecodeError`. The source skips the
  line.
- `Unexpected`: valid JSON on which the loop body raises. `TypeError`,
  `AttributeError` and `KeyError` are not caught, so the whole decode
  raises (`ShapeError`). These values are:
  - a number, a boolean or `null`, on which the `in` test raises;
  - a list that holds the string `"choices"` or `"usage"`, or a string
    that contains either one, on which the subscript raises;
  - a truthy `choices` that is not a list;
  - a first choice, or a `delta`, that is not an object;
  - a truthy `content` that is not a string.
- `Object(fragment)`: every other value. A fragment has a `choices`
  sequence, where each element has an optional `delta` with optional
  `content`, and the `usage` member. A falsy `choices` (`null`, `[]`,
  `{}`, `""`, `0`, `false`) counts as no choices. A list or a string that
  holds neither key, such as `[]`, `[1, 2]` or `"hi"`, fails both `in`
  tests and is `Fragment([], Absent)`, which has no effect.

Two details follow the code:

- `"usage": null` is `Present(None)`. Like the source, it overwrites an
  earlier usage with `None`.
- `usage` values are never inspected, so their type is a parameter `U`.

Three more details of the code that the model keeps:

- The chat body always has the system message. It is not optional.
- Valid JSON that the loop body cannot read raises. It is not skipped
  the way malformed JSON is.
- `ModelNotFoundError`'s message lists the catalog. It does not name the
  rejected model.

## Model

| member | source | states |
|---|---|---|
| `StreamDecoder.ProcessResponse` | sambanova_unofficial_api.py:125-159 | The loop that skips, breaks on the sentinel, appends non-empty delta contents and overwrites usage computes exactly `Decode(parse, lines)` |
| `StreamDecoder.Classify` | sambanova_unofficial_api.py:140-146 | A line is ignored exactly when it lacks the `data:` prefix (the empty line included); a payload line is `data:` followed by the payload text handed to the parser |
| `StreamDecoder.StripOfDataLine` | sambanova_unofficial_api.py:142-143 | On a `data:` line, `strip()` equals `rstrip()`, so the sentinel test only looks at trailing whitespace |
| `StreamDecoder.SentinelShape` | sambanova_unofficial_api.py:143 | The lines that end the stream are exactly `data: [DONE]` followed by any run of whitespace |
| `StreamDecoder.DecodeMatchesExpected` | sambanova_unofficial_api.py:136-159 | The decoder equals the reference result. If a payload before the first sentinel makes the loop raise, the call raises. Otherwise the content is the in-order concatenation of every non-empty `choices[0].delta.content` of the decoded fragments before the first sentinel, and the usage is that of the last such fragment that has the key, or None |
| `StreamDecoder.RunMatchesExpected` | sambanova_unofficial_api.py:139-157 | The same from any accumulator: the text so far is extended by the remaining live contributions and the usage is overridden only by a later fragment with the key |
| `StreamDecoder.ExpectedStep` | sambanova_unofficial_api.py:140-155 | One iteration advances the reference result. An ignored or malformed line leaves it unchanged, an object absorbs its contribution and usage, a raising payload raises, and the sentinel returns the accumulator |
| `StreamDecoder.LastUsageIsLast` | sambanova_unofficial_api.py:154-155 | The recorded usage is Absent exactly when no fragment has the key; otherwise it is that of some fragment after which no fragment has the key (last writer wins) |
| `StreamDecoder.SentinelCutsOff` | sambanova_unofficial_api.py:143-144 | The result on the whole input equals the result on the lines before the first sentinel |
| `StreamDecoder.LinesAfterSentinelIgnored` | sambanova_unofficial_api.py:143-144 | Appending arbitrary lines after a sentinel line leaves the result unchanged |
| `StreamDecoder.InertLineIrrelevant` | sambanova_unofficial_api.py:140-157 | Inserting one ignored line or one malformed `data:` line anywhere does not change the result, from any accumulator |
| `StreamDecoder.IgnoredLineIrrelevant` | sambanova_unofficial_api.py:140-142 | Inserting an empty line or a line without the `data:` prefix anywhere does not change the result |
| `StreamDecoder.MalformedLineSkipped` | sambanova_unofficial_api.py:145-157 | A `data:` line whose remainder fails JSON decoding can be removed without changing the result, so earlier content is kept |
| `StreamDecoder.RemovingInertLines` | sambanova_unofficial_api.py:139-157 | Removing all ignored and malformed lines at once does not change the result |
| `StreamDecoder.RunExtendsContent` | sambanova_unofficial_api.py:150-151 | Text accumulated so far is a prefix of the returned content, whatever lines follow |
| `StreamDecoder.ContentGrowsMonotonically` | sambanova_unofficial_api.py:139-151 | If the decoder returns on `a + b`, it returns on `a` too, and that content is a prefix of the longer one |
| `StreamDecoder.WithoutInert` | sambanova_unofficial_api.py:140-146 | The filtered lines contain no ignored or malformed line, and a line occurs in them exactly when it occurs in the input and is neither ignored nor malformed |
| `StreamDecoder.WithoutInertSingle` | sambanova_unofficial_api.py:140-146 | One line is kept exactly when it is neither ignored nor malformed |
| `StreamDecoder.WithoutInertAppend` | sambanova_unofficial_api.py:139-146 | Filtering a concatenation concatenates the filtered parts, so the kept lines keep their order and multiplicity |
| `StreamDecoder.Live` | sambanova_unofficial_api.py:143-144 | The live lines are a prefix of the input with no sentinel, followed in the input by a sentinel whenever they are shorter |
| `Strings.RStripRemovesTrailingSpace` | sambanova_unofficial_api.py:143 | `rstrip` leaves a prefix that is empty or ends in a non-space character and removes only whitespace |
| `Strings.LStripRemovesLeadingSpace` | sambanova_unofficial_api.py:143 | `lstrip` leaves a suffix that is empty or starts with a non-space character and removes only whitespace |
| `Strings.RStripOfPadded` | sambanova_unofficial_api.py:143 | A text that does not end in whitespace, followed by whitespace, right-strips back to that text |
| `Strings.StripOfNonSpaceStart` | sambanova_unofficial_api.py:143 | For a text that starts with a non-space character, `strip` equals `rstrip` |
| `Models.NewModelConfig` | sambanova_unofficial_api.py:44-52 | Construction succeeds exactly when the name is in the catalog, and then stores the name and catalog unchanged; otherwise it raises ModelNotFound carrying the catalog |
| `Models.ChatModelConfig` | sambanova_unofficial_api.py:54-70 | A chat config exists exactly for the ten chat catalog names and holds that catalog |
| `Models.VisionModelConfig` | sambanova_unofficial_api.py:72-80 | A vision config exists exactly for the two vision catalog names and holds that catalog |
| `Models.DefaultsAccepted` | sambanova_unofficial_api.py:69-79 | The default chat model and the default vision model are each accepted by their own catalog, so the argument-less constructors never raise |
| `Models.CatalogsDisjoint` | sambanova_unofficial_api.py:56-77 | No name is accepted by both the chat and the vision catalog |
| `Base64.Encode` | sambanova_unofficial_api.py:278 | The encoding has length 4·⌈n/3⌉; every character is from the standard alphabet, except `=` padding in the last two positions |
| `Base64.CharIsAlphabet` | sambanova_unofficial_api.py:278 | Each 6-bit value maps to an alphabet character other than `=`, and to no other value's character |
| `Base64.DecodeEncode` | sambanova_unofficial_api.py:278 | Decoding the encoding gives the original bytes back |
| `Base64.EncodeInjective` | sambanova_unofficial_api.py:278 | Different byte sequences have different encodings |
| `Payload.Envelope` | sambanova_unofficial_api.py:215-225 | The shared body stops on the end-of-turn token `eot_id` alone and sets `stream`, `stream_options.include_usage` and `env_type == "text"` |
| `Payload.ChatPayload` | sambanova_unofficial_api.py:196-226 | `messages` is exactly `[system(system_prompt), user(prompt)]`; model, max_tokens and fingerprint are copied unchanged; the fixed fields hold |
| `Payload.ChatPayloadRoundTrip` | sambanova_unofficial_api.py:210-225 | The chat inputs can be read back from the body, and any body of chat shape is the builder's output on the inputs read from it |
| `Payload.ImageDataUrl` | sambanova_unofficial_api.py:286 | The image URL starts with `data:image/jpeg;base64,` and has that prefix's length plus 4·⌈n/3⌉ characters |
| `Payload.ImageOfDataUrl` | sambanova_unofficial_api.py:278-286 | The image bytes can be recovered from the data URL |
| `Payload.VisionPayload` | sambanova_unofficial_api.py:259-302 | `messages` is exactly one user message holding `text(prompt)` then `image_url(data URL of the image)`; model, max_tokens and fingerprint are copied unchanged; the fixed fields hold |
| `Payload.VisionPayloadRoundTrip` | sambanova_unofficial_api.py:282-301 | All vision inputs, the image bytes included, can be read back from the body |
| `Payload.VisionPayloadInjective` | sambanova_unofficial_api.py:282-301 | Vision requests that differ in any input, the image included, give different payloads |

## Left out

- HTTP transport in `_make_request` (lines 161-191) is network I/O and is not modelled. That covers the POST, the status checks and `raise_for_status`. In the source, the blanket `except Exception` also re-wraps the `AuthenticationError` raised for status 401 into `APIRequestError`. The model claims nothing about how a 401 surfaces. A failure of `response.iter_lines()` (line 139) in the middle of the stream, such as a read timeout or a broken chunked body, is not modelled either. It escapes `_process_response`, is re-wrapped at line 191 and discards the content read so far. The model's `lines` is always a stream that has ended normally.
- `ChatAPI.chat` and `VisionAPI.vision` (lines 228-330) are not modelled, because they only call the transport. They build the default config, build the payload and call `_make_request`. That the default config never raises is `Models.DefaultsAccepted`.
- The static header dictionary and endpoint URL (lines 92-118) are not modelled, because they are constant configuration.
- The `print(content, end="")` side effect and the `stream` flag that controls it (lines 152-153) are not modelled, because console output does not affect the returned value.
- UTF-8 decoding of raw lines (line 141) is not modelled: lines are taken as already-decoded strings. A `UnicodeDecodeError`, which would escape the loop, is not modelled.
- The JSON parser (line 146) is an abstract parameter. Which texts it rejects, which make the loop raise, and how objects map to fragments is up to that parameter.
- Opening and reading the image file and the re-raised `FileNotFoundError` (lines 276-280) are file I/O. The vision builder takes the image bytes as an input.
- `uuid4()` fingerprints (lines 224 and 300) come from randomness. The fingerprint is an input, and its uniqueness across calls is not modelled.
- The `SambanovaAPI` proxy class and the `__main__` driver (lines 332-375) are not modelled, because they contain no logic.
- Models.NewModelConfig: the error's message text, a Python list `repr`, is not modelled. The error carries the catalog itself.
