# Blogging Genius: the string logic of the blog generator

The blog generator is a single page script. It takes a topic, a word count, SEO keywords and a
language, asks a Llama-type model (through the CTransformers library) for a blog post, trims the answer, makes sure it has a
closing paragraph, reads it aloud through a text-to-speech service and lists SEO suggestions.
Almost all of it is page layout and calls into outside libraries. This project models the pure
string and lookup logic inside that glue and proves what it guarantees:

- the prompt given to the model and its token budget (`max_new_tokens = no_words + 150`);
- the truncation of the model's answer: split on `". "`, keep the first `no_words // 10`
  segments, join them with `". "`, and append a period;
- the closing-paragraph guard, which appends a fixed paragraph when the text contains neither
  `"In conclusion"` nor `"To summarize"`;
- the language table of the text-to-speech step (English, Spanish, French, German to
  `en`, `es`, `fr`, `de`), with no audio for any other language;
- the three SEO suggestions built from the topic.

Modules:

- `Wrappers` (`wrappers.dfy`): `Option`, for the script's "value or `None`" results.
- `PyText` (`pytext.dfy`): the Python built-ins the script uses on text: `pat in text`
  (`Contains`), the slice `xs[:stop]` with Python's negative-index rule (`Take`), and
  `str(n)` for an integer (`IntToDecimal`, with its inverse `ParseInt`).
- `Sentences` (`sentences.dfy`): `text.split(". ")` and `". ".join(parts)`. Python's split scans
  from the left and restarts after each separator; since `". "` cannot overlap itself, the
  recursive `Split` is exactly what Python returns. It is proved that `Join(Split(s)) == s`, that
  `Split(Join(ps)) == ps` for every non-empty list of pieces none of which contains the
  separator (the empty list joins to `""`, which splits to `[""]`), and that joining the
  first `k` segments of a text gives a prefix of it.
- `Blog` (`blog.dfy`): the script's own functions `getLLamaresponse`, `generate_audio` and
  `get_seo_keywords`.

The language model is a parameter `generate` of `GetLLamaResponse`, from the prompt and the
token budget to an arbitrary answer; every property of the result holds whatever it answers.
The temporary file that receives the audio is the parameter `tempPath` of `GenerateAudio`.

## Model

| member | source | states |
|---|---|---|
| Blog.MaxNewTokens | app.py:15 | the token budget exceeds the requested word count, by exactly the 150-token slack |
| Blog.Concat | app.py:18-28 | the text of a formatted string starts with its first part (every part occurring in it is `ConcatContains`) |
| Blog.BuildPrompt | app.py:18-28 | the prompt contains the topic, the language, the decimal word count and the SEO keywords |
| Blog.ConcatContains | app.py:18-28 | every literal part and field of the formatted template occurs in the resulting text |
| PyText.IntToDecimal | app.py:22 | `str(no_words)` is non-empty and starts with a minus sign exactly when the count is negative |
| PyText.NatToDecimal | app.py:22 | the decimal form of a natural number is non-empty, all digits, with no leading zero |
| PyText.ParseIntToDecimal | app.py:22 | reading back the word count printed in the prompt gives the word count |
| Sentences.Split | app.py:34 | `response.split('. ')` is never empty, its first piece is a prefix of the text, and no piece contains the separator |
| Sentences.Join | app.py:35 | `". ".join` of a non-empty list starts with its first piece; of the empty list, it is empty |
| Sentences.JoinSplit | app.py:34-35 | joining the pieces of a split gives back the original text |
| Sentences.SplitJoin | app.py:34-35 | splitting the join of a non-empty list of separator-free pieces gives back exactly those pieces |
| Sentences.JoinTakePrefix | app.py:35 | joining the first k pieces gives a prefix of joining all of them |
| Sentences.JoinSplitPrefix | app.py:34-35 | joining the first k segments of a text gives a prefix of the text |
| PyText.Take | app.py:35 | `xs[:stop]` is a prefix of `xs` of length min(stop, len) for a non-negative stop, and of len + stop (at least 0) for a negative stop |
| Blog.SegmentBudget | app.py:35 | `int(no_words) // 10` is the floor of the count divided by ten |
| Blog.KeptSegments | app.py:34-35 | the kept segments are leading segments of the answer |
| Blog.Truncate | app.py:34-35 | the truncated text ends in a period, and what precedes that period is a prefix of the answer |
| Blog.TruncateSegments | app.py:34-35 | whenever a segment is kept, splitting the truncated text (without its final period) gives back exactly the kept segments |
| Blog.TruncateSegmentCount | app.py:34-35 | from ten words on, the truncated text holds the first `no_words // 10` segments of the answer, or all of them when the answer has fewer |
| Blog.TruncateNegative | app.py:34-35 | a negative word count keeps all segments but the last `-(no_words // 10)`, as Python's slice does |
| Blog.TruncateWholeAnswer | app.py:34-35 | when the answer has no more segments than the budget, the truncated text is the whole answer plus a period (so an answer ending in a period ends in two) |
| Blog.TruncateBelowTen | app.py:35 | a word count from 0 to 9 keeps no segment and the truncated text is exactly "." |
| PyText.Contains | app.py:38 | Python's `in` on strings holds only when the pattern is no longer than the text; `ContainsIffOccurs` characterises it fully |
| Blog.HasClosing | app.py:38 | the guard's condition holds exactly when "In conclusion" or "To summarize" occurs at some index of the text |
| PyText.ContainsIffOccurs | app.py:38 | Python's `in` on strings holds exactly when the pattern occurs at some index |
| Blog.ClosingParagraphHasClosing | app.py:39 | the fixed closing paragraph contains "In conclusion" |
| Blog.AddConclusion | app.py:38-39 | the guarded text always contains "In conclusion" or "To summarize"; it keeps the old text as a prefix; a text with a closing phrase is returned unchanged, any other gets exactly the fixed paragraph appended |
| Blog.AddConclusionIdempotent | app.py:38-39 | applying the guard a second time changes nothing |
| Blog.GetLLamaResponseTail | app.py:34-41 | the returned text contains a closing phrase and starts with the truncated text |
| Blog.ResponseTailBelowTen | app.py:35-39 | below ten words the result is "." followed by the fixed closing paragraph |
| Blog.GetLLamaResponse | app.py:11-41 | whatever the model answers to the prompt and token budget, the result contains a closing phrase and starts with the truncation of that answer |
| Blog.LocaleOf | app.py:58-67 | a language has a locale exactly when it is one of the four offered, and every locale is a two-letter code |
| Blog.LocaleTable | app.py:58-63 | English, Spanish, French and German map to en, es, fr and de; any other language has no locale |
| Blog.LocaleInjective | app.py:58-63 | no two languages share a locale |
| Blog.UnsupportedMessage | app.py:66 | the error message names the language |
| Blog.GenerateAudio | app.py:57-72 | an unsupported language gives no audio and an error naming it; a supported one gives the text spoken in its locale, saved to the temporary file |
| Blog.OfferedLanguagesHaveAudio | app.py:58-67 | each language the page's selector offers (line 111) gets audio |
| Blog.SeoKeywords | app.py:76-78 | three distinct suggestions, each containing the topic |
| Blog.SeoKeywordsInjective | app.py:76-78 | different topics give different suggestions |

## Left out

- The model calls themselves (`CTransformers` in `getLLamaresponse` and `generate_summary`): foreign
  inference; the answer is an arbitrary string supplied by the `generate` parameter. In
  `getLLamaresponse` the model file argument is commented out (app.py:13), so `generate` stands
  for whatever model that constructor yields.
- `generate_summary` as a whole: it is only a prompt sent to the model and its unchecked answer.
- The temperature settings: floating-point values passed straight to the model library.
- gTTS synthesis and `tempfile.NamedTemporaryFile`: outside libraries and file I/O; the file's
  name is the parameter `tempPath`, and the audio is represented by the text and locale it speaks.
- The `st.error` display in `generate_audio`: page output; the message is returned in `NoAudio`.
- `int(no_words)` on a float: the page's number input only yields integers, so the count is an `int`.
- All page layout and widgets, the style sheets, the floating button, the download button, the
  "another version" radio, the sidebar, the progress bar loop and the `time.sleep` delays.
- The time-of-day greeting: it reads the clock and is never shown.
- The blog outline: page output only; its `seo_words.split(',')[1]` raises when fewer than two
  keywords are given.
- The unused imports `gdown` and `os`.
- Lone surrogate code points (U+D800 to U+DFFF), which a Python `str` can hold but a Dafny
  `char` cannot; the page's inputs and the model's decoded answer never contain them.
