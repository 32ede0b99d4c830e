# Speaker store and nearest-match rule of a voice authentication script

This project models the only self-contained logic of `voice_recognition.py`, a small
voice authentication program. It covers two things:

- **Enrolment.** The process-wide dict `speaker_db` maps a speaker's name to a voiceprint, the
  embedding vector of a recording. `enroll_speaker` stores a voiceprint under a name.
- **Verification.** `recognize_speaker` scores a probe voiceprint against every stored entry
  in iteration order. It keeps the lowest score and the name it belongs to, replacing them
  only on a strictly smaller score. It accepts only when that name is truthy and its score is
  strictly below 0.6.

Modules:

- `Wrappers` (`wrappers.dfy`) holds `Option`, which stands for Python's `None`.
  `None` as a best score stands for the initial `float("inf")`.
- `SpeakerStore` (`speaker_store.dfy`) models the dict as the sequence of its items in
  iteration order, with pairwise distinct names (`UniqueNames`). It has:
  - `Enrolled`, the store after `speaker_db[name] = voiceprint`. An existing key keeps its
    position and a new key goes at the end, as in a Python dict.
  - `IndexOf` and `Lookup`, the key lookup.
  - the class `SpeakerDb`, the mutable store. Its `Enroll` method updates `entries` in place,
    and its result is proved equal to `Enrolled`.
- `Recognition` (`recognition.dfy`) has:
  - `Scan`, the loop over the items.
  - `IsScanOutcome`, the predicate specifying that loop: nothing and +infinity for an empty
    store, otherwise the first entry with the smallest score.
  - `Accepted`, the test `best_match and best_score < threshold`.
  - `Recognize`, which runs both.
  - lemmas relating them.

The distance is a parameter `dist: (Voiceprint, Voiceprint) -> real`. It stands for SciPy's
cosine distance. The threshold is a parameter whose default is `DefaultThreshold`, 0.6.

Two behaviours of the code are easy to miss:

- Verifying against an empty store is not an error. It is a plain rejection: the loop never
  runs, so `best_match` stays `None`.
- Names are not required to be non-empty. `input()` can return `""`, and such a speaker can be
  enrolled. The `""` entry then takes part in the scan, but it can never be recognized, because
  `""` is falsy. An empty-named entry that scores lowest makes the whole verification reject.

## Model

| member | source | states |
|---|---|---|
| `SpeakerStore.IndexOf` | voice_recognition.py:52 | The dict's key lookup gives the position of `name` in iteration order. That position holds the name, no earlier entry has it, and the result is None exactly when the name is not stored. |
| `SpeakerStore.IndexOfUnique` | voice_recognition.py:52 | When names are unique, the lookup of a stored name finds exactly the position that holds it. |
| `SpeakerStore.Enrolled` | voice_recognition.py:52 | Assigning `speaker_db[name]` keeps the names unique. A stored name keeps its position and only that entry gets the new voiceprint. A new name adds exactly one entry, at the end. Every other entry is unchanged. |
| `SpeakerStore.EnrolledLookup` | voice_recognition.py:52 | After enrolling, looking up `name` gives the new voiceprint. Every other name gives what it gave before. |
| `SpeakerStore.ReenrolledOverwrites` | voice_recognition.py:52 | Enrolling the same name twice gives the same store as enrolling only the second voiceprint. The old voiceprint is discarded, not combined with the new one. |
| `SpeakerStore.SpeakerDb.constructor` | voice_recognition.py:17 | The store starts empty, which trivially has unique names. |
| `SpeakerStore.SpeakerDb.Enroll` | voice_recognition.py:52 | The in-place update keeps names unique and leaves exactly `Enrolled(old entries, name, voiceprint)`. The key order stays the same for a re-enrolled name, and the new name is appended otherwise. |
| `Recognition.Scan` | voice_recognition.py:62-69 | The loop leaves `None` and +infinity on an empty store. Otherwise it leaves the name and score of an entry whose score is no larger than any entry's and strictly smaller than every earlier entry's. So the first of equal minima wins. |
| `Recognition.Recognize` | voice_recognition.py:62-71 | The reported best match and score are the scan outcome on the current store. The speaker is recognized exactly when `best_match and best_score < threshold` holds of them. |
| `Recognition.FirstClosestUnique` | voice_recognition.py:64-69 | At most one entry is the first closest, so the strict `<` tie rule picks one entry. |
| `Recognition.FirstClosestExists` | voice_recognition.py:64-69 | Every non-empty store has a first closest entry, so the scan outcome always exists. |
| `Recognition.ScanOutcomeUnique` | voice_recognition.py:62-69 | The store, the probe and the distance determine the scan's best match and best score. |
| `Recognition.ScanOutcomeBounds` | voice_recognition.py:64-69 | On a non-empty store, the best match is a stored name. The voiceprint stored under that name scores exactly the best score. The best score is at most every entry's score. |
| `Recognition.EmptyStoreRejects` | voice_recognition.py:62-76 | An empty store gives no best match and an infinite best score, and the speaker is not recognized. |
| `Recognition.Accepted` | voice_recognition.py:71 | `best_match and best_score < threshold`. A `None` or `""` best match is falsy, so it is rejected. An infinite best score (`None`) is never below the threshold. A best score equal to the threshold is rejected. With a non-empty name and a finite score, the decision is exactly `score < threshold`. |
| `Recognition.RecognizedIff` | voice_recognition.py:71 | The speaker is recognized if and only if the first closest entry has a non-empty name and scores strictly below the threshold. |
| `Recognition.EnrolThenVerify` | voice_recognition.py:46-71 | Suppose the probe is the voiceprint just enrolled under a non-empty name. Suppose also that self-distance is 0, the threshold is positive, and every other stored voiceprint is at a positive distance. Then the scan names that speaker with score 0, and the speaker is recognized. |

## Left out

- Text-to-speech through `pyttsx3` (`speak`, the engine set-up) is left out. It only has side effects in a foreign library.
- Audio capture with `sounddevice` and the WAV writing in `record_audio` are left out. This includes the float to 16-bit scaling. These are device I/O and floating-point conversion.
- Embedding extraction with librosa, soundfile and the SpeechBrain model is left out. The voiceprint is an abstract `seq<real>` passed in as `probe` or `voiceprint`.
- The cosine distance is left out and becomes the parameter `dist`. It is floating-point library code. Its scores are reals, so NaN and infinite scores are not modelled. In Python a NaN score is never `<` anything, which could leave `best_match` at `None` on a non-empty store. In the model the first entry always replaces the initial +infinity.
- `speech_to_text` is left out. It is a network call to a cloud recogniser, with exceptions.
- The interactive `main` loop, `input()` and every `print` are left out. The name typed at enrolment is a parameter of `Enroll`.
- Recognize: the per-entry `print` of each score and the spoken welcome or refusal are not modelled. Only the reported best match, best score and decision are.
