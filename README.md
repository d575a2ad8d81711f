# Word-by-word caption timing, subtitle numbering and scene filtering

This project models, in Dafny, the three pieces of logic that sit between the
library calls of the video captioning view `videoapp/views.py`:

- **Caption compositor** (`agregar_subtitulos`, module `Captions`): every
  subtitle cue's content is split on whitespace into `n` words; the cue's
  interval `[start, end]` is cut into `n` equal slices and word `i` is shown
  from `start + i*(end-start)/n` to `start + (i+1)*(end-start)/n`. The
  overlays of all cues are collected cue by cue, word by word. The nested
  loop is the method `AddSubtitles`, proved equal to the specification
  function `Overlays`; the lemmas prove that each cue's word slices partition
  the cue, that a blank cue yields no overlay (so the division by the word
  count never happens for it) and that the list is the concatenation of the
  cues' lists in cue order.
- **Whitespace split** (`str.split()` with no argument, module `WordSplit`):
  the maximal runs of non-whitespace characters, in order. Proved: words are
  non-empty and free of whitespace, a string splits into nothing exactly when
  it is blank, the words hold exactly the non-whitespace characters in
  order, splitting distributes over a whitespace separator, and splitting
  `" ".join(words)` gives the words back.
- **Subtitle writer** (`generar_subtitulos`, module `Subtitles`): each
  transcript segment at position `i` becomes the cue numbered `i` with the
  segment's start, end and text. The `enumerate` loop is the method
  `GenerateSubtitles`.
- **Scene filter** (`detectar_escenas`, module `Scenes`): the scenes whose
  duration `end - start` is at least `min_duration` (default 2.0 s), kept
  unchanged and in detection order. Proved: the result is exactly the
  long-enough scenes, selected by strictly increasing positions; the filter
  distributes over concatenation, is idempotent and keeps an all-long list
  whole.

Times are exact `real` seconds throughout. Module and member names are in
English: `agregar_subtitulos` is `Captions.AddSubtitles`,
`generar_subtitulos` is `Subtitles.GenerateSubtitles`, and the comprehension
of `detectar_escenas` is `Scenes.FilterScenes`.

## Model

| member | source | states |
|---|---|---|
| `WordSplit.IsSpace` | videoapp/views.py:65 | the separators of `str.split()`: the characters for which Python's `str.isspace()` holds, namely space, U+0009..U+000D (tab, line feed, vertical tab, form feed, carriage return), U+001C..U+001F, U+0085, U+00A0, U+1680, U+2000..U+200A, U+2028, U+2029, U+202F, U+205F and U+3000 |
| `WordSplit.LeadingWord` | videoapp/views.py:65 | the word at the head of a string is its longest whitespace-free prefix: a prefix, with no whitespace, followed by whitespace or the end |
| `WordSplit.Split` | videoapp/views.py:65 | every piece `str.split()` returns is non-empty and holds no whitespace |
| `WordSplit.SplitEmptyIffBlank` | videoapp/views.py:65-67 | a content splits into no words if and only if it is empty or whitespace only |
| `WordSplit.SplitKeepsCharacters` | videoapp/views.py:65 | the words laid end to end are exactly the non-whitespace characters of the content, in their original order |
| `WordSplit.SplitAroundSpace` | videoapp/views.py:65 | splitting `a + c + b` at a whitespace character `c` gives the words of `a` followed by the words of `b` |
| `WordSplit.SplitOfWord` | videoapp/views.py:65 | a non-empty whitespace-free string splits into itself alone |
| `WordSplit.SplitJoin` | videoapp/views.py:65 | splitting the space-joined list of words returns that list (split is the inverse of join) |
| `Scenes.LongEnough` | videoapp/views.py:42 | the comprehension's condition: a scene is kept when `end - start >= min_duration`, a duration equal to the minimum included |
| `Scenes.FilterScenes` | videoapp/views.py:42 | the result is no longer than the input and every kept scene lasts at least `min_duration` |
| `Scenes.FilterSelectsPositions` | videoapp/views.py:42 | kept scene `j` is the input scene at the `j`-th selected position, positions strictly increase, and position `i` is selected if and only if scene `i` lasts at least `min_duration` (the boundary included) |
| `Scenes.FilterMembership` | videoapp/views.py:42 | a pair is in the result if and only if it is in the input and its duration is at least `min_duration` |
| `Scenes.FilterAppend` | videoapp/views.py:42 | filtering a concatenation is the concatenation of the filtered parts, so relative order is kept |
| `Scenes.FilterIdempotent` | videoapp/views.py:42 | filtering the filtered list again with the same minimum changes nothing |
| `Scenes.AllLongEnoughKept` | videoapp/views.py:42 | when every scene is long enough the input comes back unchanged |
| `Scenes.DefaultFilterExample` | videoapp/views.py:34-43 | with the default minimum 2.0, durations 1.0, 2.0, 2.5, 0.5 keep exactly the 2.0 and 2.5 scenes |
| `Subtitles.GenerateSubtitles` | videoapp/views.py:47-52 | one cue per segment; cue `i` is numbered `i`, so numbers run 0..N-1 in order; dropping the number from cue `i` gives back segment `i` (start, end and text unchanged) |
| `Captions.SliceOffset` | videoapp/views.py:69-70 | slice `i` of `n` begins `i` slice widths after the cue start and ends one width `(end-start)/n` later |
| `Captions.SlicesCover` | videoapp/views.py:69-70 | the first slice starts at the cue start and slice `n-1` ends exactly at the cue end |
| `Captions.SliceInside` | videoapp/views.py:69-70 | for `start <= end` and `i < n`, slice `i` lies within `[start, end]` and does not run backwards |
| `Captions.SliceStart` | videoapp/views.py:69 | the `set_start` value of word `i` of `n`: `start + i*(end-start)/n`, defined only for `n > 0` |
| `Captions.SliceEnd` | videoapp/views.py:70 | the `set_end` value of word `i` of `n`: `start + (i+1)*(end-start)/n`, defined only for `n > 0` |
| `Captions.SlicedTiming` | videoapp/views.py:67-70 | overlay `i` carries word `i` and runs from `start + i*(end-start)/n` to `start + (i+1)*(end-start)/n`, with `n` the number of words |
| `Captions.SlicedContiguous` | videoapp/views.py:69-70 | each word's end equals the next word's start; the first word starts at `start` and the last ends at `end` |
| `Captions.SlicedEqualWidths` | videoapp/views.py:69-70 | every word is shown for `(end-start)/n`, and for `start <= end` every word interval lies inside `[start, end]` |
| `Captions.CueOverlays` | videoapp/views.py:65-72 | one cue's `word_clips`: the words of `content.split()`, word `i` timed by slice `i` of the cue's interval |
| `Captions.Overlays` | videoapp/views.py:64-73 | the list `subs` after the outer loop: each cue's `word_clips` appended in cue order |
| `Captions.CueOverlaysWords` | videoapp/views.py:65-72 | a cue yields exactly one overlay per whitespace-separated word of its content, in word order |
| `Captions.CueOverlaysPartition` | videoapp/views.py:64-72 | a cue's overlays meet end to start, start at the cue start, end at the cue end, and lie inside the cue when `start <= end` |
| `Captions.BlankCueHasNoOverlays` | videoapp/views.py:65-67 | a cue yields no overlay if and only if its content is empty or whitespace only |
| `Captions.OverlaysAppend` | videoapp/views.py:64-73 | the overlays of two runs of cues are those of the first run followed by those of the second |
| `Captions.OverlaysSnoc` | videoapp/views.py:73 | `subs.extend(word_clips)`: the overlays of one more cue are those of the earlier cues followed by that cue's own |
| `Captions.OverlaysCount` | videoapp/views.py:64-73 | the final list has one overlay per word over all cues |
| `Captions.OverlaysOfCue` | videoapp/views.py:64-73 | cue `k`'s overlays form one block after those of cues `0..k-1` and before those of the later cues |
| `Captions.AddSubtitles` | videoapp/views.py:62-73 | the nested loop produces exactly `Overlays(cues)`, the cue-by-cue, word-by-word concatenation |
| `Captions.ThreeWordExample` | videoapp/views.py:64-73 | content "a b c" over [10, 13] gives ("a", 10, 11), ("b", 11, 12), ("c", 12, 13) |

## Left out

- Video download through yt_dlp (`descargar_video`, views.py:17-26): network I/O through a foreign library.
- Whisper transcription (`transcribir_audio`, views.py:28-32): a foreign model; its segments are only an input here.
- Scene detection itself (`open_video`, `SceneManager`, `ContentDetector`, views.py:36-40): foreign calls; the raw scene list, already converted to seconds by `get_seconds()`, is the input of `FilterScenes`.
- `srt.compose`, `srt.parse` and the file write/read (views.py:53-54, 62-63): the SubRip text format and its round trip live in a library not modelled; the compositor's cues are taken as already parsed, and the cue list of `GenerateSubtitles` is not connected to them.
- Conversion of float seconds to `timedelta` with microsecond rounding and back through `total_seconds()` (views.py:49-50, 69-70): times are exact reals.
- Scenes.FilterScenes: the source compares a float difference, `scene[1].get_seconds() - scene[0].get_seconds() >= min_duration`, so for a scene lasting `min_duration` exactly the rounded difference can fall on either side (at 24 fps, frames 1 to 49 give 1.9999999999999998 and are dropped, frames 13 to 61 give 2.0 and are kept although the exact difference of those two floats is below 2); the inclusive boundary the model proves holds over exact reals only.
- IEEE floating point: the source computes the slice bounds in binary floats. Contiguity holds there too, since the end of word `i` and the start of word `i+1` are the same expression; that the last word ends exactly at the cue end, that slices have equal width and that they lie inside the cue hold in floats only up to rounding, while the model proves them exactly.
- moviepy `TextClip` rendering (font, size, colours, `method='caption'`, bottom-centre position), `CompositeVideoClip` and encoding at 30 fps (views.py:58, 60, 68, 71, 75-76): media I/O and rendering; an overlay is modelled as word, start and end only.
- The Django view `procesar_video` (views.py:78-108): request and form handling, directory creation, file removal, relative URL building and template rendering.
- The process-wide `IMAGEMAGICK_BINARY` setting and output directory creation at import time (views.py:12-15), and the console messages printed by every step.
