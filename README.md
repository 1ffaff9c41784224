# videogpt.rs — a Dafny model of the summarise-and-save core

videogpt.rs turns a video's transcript into a Markdown guide. It fetches
the transcript, asks an LLM to summarise it, and saves the result as a
`.md` file. This project models the two pure cores between the network
calls and the filesystem write.

- **The saver** (`src/saver.rs`). It chooses the file name: a caller-supplied
  name, a name derived from the document's first line, or a fresh UUID. It
  puts a `Video URL:` header in front of the document, joins the file name
  onto an optional folder, creates that folder if needed, and writes the
  file. Names and texts are pure functions. `prepare_folder` and `save` are
  methods over an abstract filesystem.
- **The summariser** (`src/video_gpt.rs`). It maps the quality level to a
  model identifier and builds the two-message request around the transcript
  with a 64000-token cap. It takes the text of the reply's first content
  block, and sequences the transcript fetch before the summary. All of it is
  pure functions. The transcript service and the model API are parameters:
  functions from request to reply.

Modules, one per file:

- `Outcomes`: `Option` and `Result`.
- `Text`: the Rust string operations the saver chains.
- `Paths`: Unix `Path::join`.
- `FileSystems`: the abstract filesystem. It holds files, directories, and a
  fixed set of paths where creating or writing fails.
- `Saver`: models `src/saver.rs`.
- `VideoGpt`: models `src/video_gpt.rs`.
- `Pipeline`: how `src/main.rs` configures the saver.

Behaviour of the code that the model makes explicit:

- `replace("# ", "")` removes every `"# "` in the first line, not only a
  leading one (`RemoveMarkerSplits`).
- The existence check looks at the bare derived name, with no `.md` and no
  folder, relative to the working directory. So an existing
  `folder/name.md` is overwritten (`ExistingTargetNotDetected`).
- A failed model-API call is unwrapped, so the program aborts.
  `get_instructions` never returns an error (`GetInstructions`). The only
  error `get_gpt` returns is the transcript fetch's
  (`TranscriptFailureStopsRun`).

Rust semantics made explicit:

- `lines().next()` splits at `'\n'`. It drops one `'\r'` only when that
  `'\r'` stands right before the `'\n'`. On the empty text it yields no line.
- `replace` scans left to right for matches that do not overlap, and does
  not re-scan the result.
- `Path::join` with an absolute file name replaces the folder.
- `fs::write` to a path that is a directory fails.
- `println!("Saved at: …")` still runs when the write fails, but not when
  the folder cannot be created. `Save` returns that path as `shown`.

## Model

| member | source | states |
|---|---|---|
| `Text.NewlineIndex` | src/saver.rs:30-31 | the index is the first line feed of the text, or its length when there is none |
| `Text.FirstLineOpt` | src/saver.rs:30-31 | no line exactly for the empty text; otherwise a prefix of the text without a line feed, the whole text when it has no line feed |
| `Text.FirstLine` | src/saver.rs:30-32 | `unwrap_or("")`: a prefix without a line feed, the whole text when it has none |
| `Text.FirstLineOfTerminated` | src/saver.rs:30-32 | a line not ending in `\r`, followed by `\n`, is read back exactly |
| `Text.FirstLineOfCrlfTerminated` | src/saver.rs:30-32 | a line followed by `\r\n` is read back exactly: one `\r` is dropped, so a line ending in `\r` keeps it |
| `Text.FirstLineOfPrefixed` | src/saver.rs:30-32 | a leading piece without line feed, not ending in `\r`, stays at the head of the first line |
| `Text.ReplaceAll` | src/saver.rs:33-34 | a replacement no longer than the pattern never lengthens the text |
| `Text.ReplaceAllChars` | src/saver.rs:33-34 | a character in neither the text nor the replacement is not in the result |
| `Text.ReplaceCharAt` | src/saver.rs:34 | replacing `" "` by `"-"` (any one character by another) keeps the length and maps every position independently |
| `Text.ReplaceAbsent` | src/saver.rs:33-34 | a text in which the pattern does not occur is unchanged, so a `#` outside a `"# "` survives (`"Issue #5"`) |
| `Text.ToLowerAscii` | src/saver.rs:35 | same length; each character is its ASCII lower-case form |
| `Text.LowerAsciiAddsNothing` | src/saver.rs:35 | lower-casing introduces no character other than a small letter |
| `Text.LowerAsciiIdempotent` | src/saver.rs:35 | lower-casing twice equals lower-casing once |
| `Saver.DerivedName` | src/saver.rs:29-35 | the first line with every `"# "` removed, spaces hyphenated, lower-cased; specified by `DerivedNameIsClean`, `RemoveMarkerSplits`, `HeadingDerivesTitle` and `HeadingLineName` |
| `Saver.DerivedNameIsClean` | src/saver.rs:29-35 | the derived name has no space, no `"# "`, no line feed, no capital letter, and is no longer than the document |
| `Saver.RemoveMarkerSplits` | src/saver.rs:33 | every `"# "` is removed wherever it stands, not only a leading one |
| `Saver.HeadingDerivesTitle` | src/saver.rs:29-35 | a document whose first line is `"# " + title` gives the same name as one whose first line is `title` |
| `Saver.HeadingLineName` | src/saver.rs:29-35 | a heading line whose title holds no further `"# "` gives that title with hyphens for spaces, lower-cased; other `#` in the title stay |
| `Saver.Filename` | src/saver.rs:26-45 | a custom name is the file name verbatim; without one, the file name always ends in `.md` |
| `Saver.DefaultFilename` | src/saver.rs:37-43 | without a custom name, and with an id other than the derived name, the file is `id + ".md"` if and only if the derived name is empty or exists |
| `Saver.FreshIdUsedExactlyWhen` | src/saver.rs:37-40 | the UUID influences the file name if and only if the derived name is empty or exists |
| `Saver.HeadingScenario` | src/saver.rs:26-45 | `"# My Great Guide"` on its own line, with nothing named `my-great-guide`, is saved as `my-great-guide.md` |
| `Saver.EmptyDocumentScenario` | src/saver.rs:29-40 | an empty document always gets the UUID name |
| `Saver.ExistingTargetNotDetected` | src/saver.rs:37 | the check sees only the bare name: a file already at the resolved `folder/name.md` does not change the chosen name |
| `Saver.Header` | src/saver.rs:48 | `"Video URL: " + url + "\n\n\n"`; that it is removable exactly from composed texts is `StripHeaderInvertsCompose` |
| `Saver.Compose` | src/saver.rs:47-49 | no URL leaves the document unchanged; a URL gives `"Video URL: " + url + "\n\n\n"` as prefix and the document as suffix |
| `Saver.StripHeaderInvertsCompose` | src/saver.rs:47-49 | removing the header gives the document back, and only composed texts carry that header |
| `Saver.ResolvePath` | src/saver.rs:51-57 | the path ends with the file name; without a folder it is the file name |
| `Saver.ResolveKeepsFileName` | src/saver.rs:51-57 | for a file name without `/`, the path's last segment is the file name whatever the folder |
| `Saver.PrepareFolder` | src/saver.rs:14-21 | creates the folder only when nothing exists there; on success returns its input unchanged and the folder exists; a failed creation is the error naming the folder |
| `Saver.Save` | src/saver.rs:23-63 | name from the original document and the state before any effect; the written text is the composed one at the resolved path; folder failure writes nothing and shows nothing; a write failure still shows the path |
| `Paths.Join` | src/saver.rs:54 | the joined path ends with the file name; an absolute file name replaces the folder; otherwise the folder is a prefix |
| `Paths.JoinKeepsFileName` | src/saver.rs:54 | a file name without `/` is the last segment of the joined path |
| `FileSystems.FileSystem.CreateDirAll` | src/saver.rs:16 | succeeds exactly when the path is not denied, adding it as a directory; files unchanged; nothing that existed disappears, and on success the path exists |
| `FileSystems.FileSystem.Write` | src/saver.rs:59 | succeeds exactly when the path is neither denied nor a directory, then the file at the path holds the data; nothing else changes; nothing that existed disappears, and on success the path exists |
| `VideoGpt.ModelFor` | src/video_gpt.rs:90-93 | the level is read back from its model (`LevelOf`); the full one-to-one map is `ModelForInvertible` |
| `VideoGpt.ModelForInvertible` | src/video_gpt.rs:90-93 | the level-to-model map is total and one-to-one: `High` is `claude-sonnet-4-20250514`, `Low` is `claude-3-5-haiku-latest`, and the level is read back from the model |
| `VideoGpt.New` | src/video_gpt.rs:86-94 | the summariser's model stands for the configured level; it carries the fixed instruction and the two keys |
| `VideoGpt.WrapTranscript` | src/video_gpt.rs:109 | 12-character opening tag, the transcript, 13-character closing tag |
| `VideoGpt.UnwrapInvertsWrap` | src/video_gpt.rs:109 | stripping the tags recovers the transcript, and only wrapped texts unwrap |
| `VideoGpt.BuildRequest` | src/video_gpt.rs:103-113 | two user messages, the instruction first and the wrapped transcript second; the summariser's model; `max_tokens` 64000 |
| `VideoGpt.FirstText` | src/video_gpt.rs:117-121 | text is returned exactly when the first block exists and is text; an empty reply or another first block aborts |
| `VideoGpt.FirstTextLooksAtFirstBlockOnly` | src/video_gpt.rs:117-121 | a leading text block wins whatever follows; a leading non-text block aborts even when text comes later |
| `VideoGpt.GetInstructions` | src/video_gpt.rs:102-124 | never returns an error; a failed API call aborts; otherwise the first-block text of the reply to the built request |
| `VideoGpt.GetTranscript` | src/video_gpt.rs:97-100 | the fetch's transcript, or its error returned unchanged |
| `VideoGpt.GetGpt` | src/video_gpt.rs:126-131 | the run returns an error exactly when the transcript fetch fails; the rest is `TranscriptFailureStopsRun` and `SummaryUsesBuiltRequest` |
| `VideoGpt.TranscriptFailureStopsRun` | src/video_gpt.rs:126-131 | a failed fetch is the result whatever the API would do; any returned error comes from the fetch |
| `VideoGpt.SummaryUsesBuiltRequest` | src/video_gpt.rs:126-131 | after a fetch the result depends on the API only through its reply to the built request, and is that reply's first text |
| `Pipeline.MainSaveTarget` | src/main.rs:51-55 | with the entry point's options a relative file name lands in `gpts/`, and the text starts with the URL line |

## Left out

- Network I/O is not modelled: the transcript service (`src/supdata.rs`) and `AnthropicClient::create_message`. Both are function parameters from request to reply.
- `Mode` and its `Display` in `src/supdata.rs` are left out because only commented-out code uses them.
- `fs::create_dir_all`, `fs::write` and `Path::exists` act on the abstract `FileSystem`. Paths are compared as plain strings, so `gpts` and `gpts/` are different paths. Creating a folder adds only that folder, not its missing ancestors. A write into a directory that does not exist is not a failure in the model.
- The `denied` set stands for permissions and other causes of I/O failure. It does not change during a run.
- The UUID is an input (`id`). Its randomness cannot be verified, and neither can the uniqueness of two generated names.
- The race between the existence check and the write is not modelled. The model is one sequential run.
- `Text.ToLowerAscii`: models ASCII lower-casing only. `to_lowercase` also maps non-ASCII letters, and for some letters the lower-case form is longer.
- `Saver.DerivedNameIsClean`: a consequence of the ASCII restriction is that "no capital letter" covers ASCII capitals only.
- The text of the system instruction is not modelled. `VideoGpt.SystemPrompt` is a stand-in constant, and no proof depends on its wording.
- `AnthropicClient::new(...).unwrap()` is not modelled. `New` assumes the client is built.
- The API version string `"2023-06-01"` is not modelled.
- `Supdata::new` is not modelled.
- The async runtime and its suspension points are not modelled.
- `src/main.rs` is mostly left out: CLI parsing and its default level `Low`, `.env` and environment-variable loading, the tokio runtime, and printing. Only its saver configuration is modelled, in `Pipeline`.
- Windows path rules for `Path::join` are not modelled (drive prefixes, `\`).
