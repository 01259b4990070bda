# Sign2Talk core, modelled in Dafny

Sign2Talk links a sign-language detector, an Alexa skill and a robotic hand.
This project models the three pieces of logic at its core and proves what they promise.

- **The phrase-to-sign mapping of the hand** (`sign2talk.py`, modules `PyStr` and `Sign2Talk`).
  - `normalize_text` lower-cases the text, drops `string.punctuation` and strips blanks.
  - `load_signs` turns a directory listing into a catalogue. Each `.d6a` file is stored under its stem, with its joined path as the value.
  - `phrase_to_signs` expands a phrase, word by word, into the action files to play. A word uses its `sign_<word>` file when the catalogue has one. Otherwise it is spelled with its `letter_<c>` files, skipping letters that have none.
  - The Python string built-ins these use are modelled in `PyStr`: `lower`, `translate`, `strip`, `split()` and `" ".join`.
- **The Alexa skill handler** (`amazon/lambda.py`, module `AlexaLambda`).
  - The pure function `Handle` gives, for one event, the new per-user translator-mode table (`modo_traductor`), the effects on the robot and the speech response.
  - The class `TranslatorSkill` holds the table and an effect log. Its `LambdaHandler` method takes the same branches and loops as the source and is proved equal to `Handle`.
  - A complete sign (`SENIAS_COMPLETAS`) is published in mode `seña` to the left hand, then to the right hand. Any other word is published once in mode `deletreo` for spelling.
- **The phrase builder of the detector** (`detection/predict_v3.py`, module `PhraseBuilder`).
  - Each frame may update the held prediction. Then one key is acted on:
    - Space appends the held label under a 0.5 s debounce and a 0.85 confidence threshold;
    - Enter publishes the whole phrase as one `frase_completa` message on `robot/sign_detected` and clears it;
    - Backspace deletes the last character;
    - `q` stops the loop.
  - The pure functions `Observe`, `PressKey`, `Step` and `Run` specify the loop.
  - The class `CaptureSession` holds the loop's variables, and its methods are proved against those functions.
  - Time is in integer milliseconds and confidence in integer thousandths.

Shared modules: `Wrappers` provides `Option`, and `Seqs` holds generic sequence lemmas.

How `sign2talk.py` builds and reads its catalogue:

- Whole-word files are looked up as `sign_<word>` (sign2talk.py:37), letters as `letter_<c>` (sign2talk.py:43).
- The catalogue keys keep their prefix (`sign_hola`, `letter_h`). The prefix is not stripped at load time, and an entry has no separate kind.
- `load_signs` is a plain dictionary comprehension over the listing. A later file with the same stem replaces an earlier one.
- Lookups are exact, on the normalised word.

Two behaviours of the source are modelled as written:

- In the Alexa handler, the two-word entry `"te quiero"` of `SENIAS_COMPLETAS` can never be matched. The words come from `split()` and contain no blank. `AlexaLambda.PhraseMessages` proves that no message ever carries it.
- In the detector, `predict` can succeed while `predict_proba` raises before any confidence was ever computed. The label is then held without a confidence, and the next Space raises `NameError`, which ends the script. The model gives this outcome the status `Crashed`.

## Model

| member | source | states |
|---|---|---|
| PyStr.Lower | sign2talk.py:16 | an upper-case letter becomes its small letter, 32 code points further on; every other character is kept |
| PyStr.LowerStr | sign2talk.py:16 | lower-casing keeps the length and leaves no upper-case letter |
| PyStr.LowerStrAt | sign2talk.py:16 | each character of the lowered text is the lowered character at the same place |
| PyStr.RemovePunct | sign2talk.py:17 | the result is no longer than the input and holds no `string.punctuation` character |
| PyStr.TrimLeft | sign2talk.py:18 | `lstrip` keeps a suffix: everything dropped is blank and the result does not start with a blank |
| PyStr.TrimRight | sign2talk.py:18 | `rstrip` keeps a prefix: everything dropped is blank and the result does not end with a blank |
| PyStr.Strip | sign2talk.py:18 | the stripped text neither starts nor ends with a blank |
| PyStr.StripKeeps | sign2talk.py:18 | any property of every character of the text holds of every character of its strip |
| PyStr.WordEnd | sign2talk.py:33 | the leading run of non-blanks ends at a blank or at the end of the text |
| PyStr.Split | sign2talk.py:33 | `split()` gives at most one word per character; its words are described by the lemmas below |
| PyStr.SplitWords | sign2talk.py:33 | every element of `split()` is non-empty and holds no blank |
| PyStr.SplitAtSpace | sign2talk.py:33 | `split()` of two texts joined by a blank is the split of the first followed by the split of the second |
| PyStr.SplitStrip | sign2talk.py:15-33 | stripping before splitting does not change the words |
| PyStr.SplitKeepsNonSpace | sign2talk.py:33 | the words of `split()` hold as many characters in total as the text has non-blank characters |
| Sign2Talk.Normalize | sign2talk.py:15-18 | the normalised text has no upper case, no punctuation and no blank at either end |
| Sign2Talk.NormalizeFixes | sign2talk.py:15-18 | a text that is already normal is left as it is |
| Sign2Talk.NormalizeIdempotent | sign2talk.py:15-18 | normalising twice gives the same as normalising once |
| Sign2Talk.Stem | sign2talk.py:24 | `splitext` on a `.d6a` name drops the extension when some character before it is not a dot, and keeps the whole name when all are dots |
| Sign2Talk.JoinPath | sign2talk.py:24 | an absolute name is kept as it is; a relative name is appended to the directory, with a `/` added exactly when the directory is non-empty and does not end in one |
| Sign2Talk.LoadSigns | sign2talk.py:22-27 | every key of the catalogue is the stem of some `.d6a` file of the listing |
| Sign2Talk.LastSignFile | sign2talk.py:23-27 | the last `.d6a` file of the listing with a given stem, or none |
| Sign2Talk.LoadSignsEntries | sign2talk.py:22-27 | a stem is a key iff some `.d6a` file has it, and its value is the joined path of the last such file |
| Sign2Talk.LoadSignsIgnores | sign2talk.py:26 | a name that does not end in `.d6a` adds no entry |
| Sign2Talk.PhraseToSigns | sign2talk.py:31-46 | the nested loops return exactly `PhraseSigns`: the words' contributions in order |
| Sign2Talk.SpellInto | sign2talk.py:42-45 | the letter loop appends the spelling of the word to the sequence built so far |
| Sign2Talk.SpellConcat | sign2talk.py:42-45 | spelling goes letter by letter, left to right |
| Sign2Talk.SpellLetter | sign2talk.py:43-45 | a letter contributes its `letter_` file, or nothing when it has none |
| Sign2Talk.WordsSignsConcat | sign2talk.py:35-45 | the files of a list of words are those of each word, concatenated in order |
| Sign2Talk.WordInContext | sign2talk.py:36-45 | a word with a `sign_` file contributes exactly that file in place; any other word contributes exactly its spelling |
| Sign2Talk.WordsAreWords | sign2talk.py:33 | every word of the normalised phrase is non-empty and free of blanks |
| Sign2Talk.PhraseSignsAreEntries | sign2talk.py:31-46 | every returned file is a value of the catalogue |
| Sign2Talk.PhraseSignsLength | sign2talk.py:31-46 | at most one file per non-blank character of the normalised phrase |
| Sign2Talk.PhraseSignsAtSpace | sign2talk.py:31-46 | the files of `a + " " + b` are the files of `a` followed by those of `b` |
| Sign2Talk.PhraseSignsBlank | sign2talk.py:31-46 | a phrase made only of blanks and punctuation yields no files |
| PyStr.JoinSpace | amazon/lambda.py:123 | joining no parts gives the empty text and joining one part gives that part |
| PyStr.JoinSpaceLength | amazon/lambda.py:123 | the joined text is as long as all the parts together plus one blank between each two |
| PyStr.JoinSpaceConcat | amazon/lambda.py:123 | joining two non-empty lists gives the join of the first, one blank, then the join of the second |
| PyStr.SplitJoin | amazon/lambda.py:123 | splitting words joined by single blanks gives back exactly those words, in order |
| AlexaLambda.BuildResponse | amazon/lambda.py:153-161 | a version 1.0 plain-text speech of the given text, with the given end-of-session flag |
| AlexaLambda.TranslatorSkill.constructor | amazon/lambda.py:13 | the mode table starts empty and nothing has been sent |
| AlexaLambda.TranslatorSkill.LambdaHandler | amazon/lambda.py:59-137 | the table, the effects and the response are exactly those of `Handle` for the old table |
| AlexaLambda.TranslatorSkill.SendCompleteSign | amazon/lambda.py:139-143 | one `seña` publish per hand topic, in order, at QoS 0 |
| AlexaLambda.TranslatorSkill.SendWordToSpell | amazon/lambda.py:146-150 | one `deletreo` publish on `traductor/deletrear` at QoS 0 |
| AlexaLambda.TranslatorSkill.TranslateWords | amazon/lambda.py:109-123 | the word loop sends `PublishAll` of the words and collects one acknowledgement per word |
| AlexaLambda.WordEffectsShape | amazon/lambda.py:116-121 | a complete sign goes to the left hand and then the right hand; any other word goes once to the spelling topic |
| AlexaLambda.PublishAllConcat | amazon/lambda.py:112-121 | the messages and acknowledgements of a phrase are those of its parts, in order |
| AlexaLambda.AcksAt | amazon/lambda.py:112-123 | exactly one acknowledgement per word, the k-th about the k-th word |
| AlexaLambda.PublishAllMessages | amazon/lambda.py:112-121 | every message is a QoS 0 publish of one of the words, in `seña` mode on a hand topic iff the word is a complete sign |
| AlexaLambda.PhraseMessages | amazon/lambda.py:106-121 | every message of a translation carries a word of the lower-cased phrase, and none carries "te quiero" |
| AlexaLambda.WordNotTwoWords | amazon/lambda.py:21 | no blank-free word equals the two-word sign |
| AlexaLambda.BlankPhrase | amazon/lambda.py:109-124 | a blank phrase publishes nothing and gives empty text |
| AlexaLambda.LaunchActivates | amazon/lambda.py:69-78 | a launch request turns the user's mode on and keeps the session open; the robot's word is spoken and cleared iff one is present |
| AlexaLambda.ModeChanges | amazon/lambda.py:81-133 | yes turns the mode on, leaving turns it off, and no, fallback and unknown intents leave the table as it was |
| AlexaLambda.TranslateActivates | amazon/lambda.py:99-137 | after a translate request the user's mode is on whatever it was; a missing slot gives the error response with nothing sent |
| AlexaLambda.OtherUsersUnchanged | amazon/lambda.py:66-103 | only the requesting user's entry (default `anonimo`) can change |
| AlexaLambda.EndsSession | amazon/lambda.py:59-161 | every response is version 1.0 plain text; the session ends iff the request is no, leave, or translate without a phrase |
| AlexaLambda.QuietRequests | amazon/lambda.py:81-133 | only launch and translate requests affect the robot |
| PhraseBuilder.KeyCode | detection/predict_v3.py:136 | the key is the low byte: it differs from the raw code by a multiple of 256, so codes 0-255 are kept, "no key" (-1) becomes 255 and modifier bits above the low byte are dropped |
| PhraseBuilder.CaptureSession.constructor | detection/predict_v3.py:65-72 | empty phrase, last append at 0, no prediction held, running, nothing published |
| PhraseBuilder.CaptureSession.ObserveHand | detection/predict_v3.py:89-131 | the held prediction moves exactly as `Observe` says |
| PhraseBuilder.CaptureSession.HandleKey | detection/predict_v3.py:136-172 | the loop's variables move exactly as `PressKey` says for the key's low byte |
| PhraseBuilder.CaptureSession.Iteration | detection/predict_v3.py:80-172 | one pass of the loop is `Step`: a failed frame read stops it, otherwise observe then act on the key |
| PhraseBuilder.CaptureSession.RunLoop | detection/predict_v3.py:80-172 | the loop over the frames ends in `Run` of them |
| PhraseBuilder.RunStopped | detection/predict_v3.py:80-172 | once the loop has stopped, later frames change nothing |
| PhraseBuilder.SpaceKey | detection/predict_v3.py:139-148 | Space appends iff a label and a confidence are held, the confidence exceeds 0.85 and more than 0.5 s have passed; otherwise nothing changes, except that a label without a confidence crashes |
| PhraseBuilder.EnterKey | detection/predict_v3.py:152-163 | Enter on a non-empty phrase publishes it whole, once, and empties it; on an empty phrase it changes nothing |
| PhraseBuilder.EnterIgnoresTime | detection/predict_v3.py:152-161 | sending has no cooldown: Enter does not depend on the clock or the last append |
| PhraseBuilder.BackspaceKey | detection/predict_v3.py:166-168 | Backspace drops exactly the last character, and an empty phrase stays empty |
| PhraseBuilder.QuitKey | detection/predict_v3.py:171-172 | `q` stops the loop and changes nothing else |
| PhraseBuilder.OtherKeys | detection/predict_v3.py:136-172 | any other key, including none, changes nothing |
| PhraseBuilder.HeldPrediction | detection/predict_v3.py:89-108 | a classified frame replaces the held label, and the confidence too when `predict_proba` succeeds; a frame without a hand or whose prediction fails changes nothing |
| PhraseBuilder.StepOneAction | detection/predict_v3.py:136-172 | one iteration appends or sends but never both; only an append moves the last-append time |
| PhraseBuilder.DebounceSpacing | detection/predict_v3.py:146-148 | over a run, any two appends are more than 0.5 s apart, and the held last-append time is the latest append |
| PhraseBuilder.RunPublishes | detection/predict_v3.py:152-161 | a run only adds messages, each the whole of a non-empty phrase on `robot/sign_detected`, `frase_completa`, QoS 1 |

## Left out

- File system, hardware and sleeps: `os.listdir` is replaced by a given list of names. `initLeArm`, `play_sign` and `time.sleep` are not modelled.
- The AWS calls in `amazon/lambda.py`:
  - the shadow read is an `Option<string>` input, `None` when the read fails or the field is missing;
  - a shadow value that is not a string is not modelled;
  - clearing the shadow is the effect `ClearRobotMessage`; its own failures are caught and logged in the source, so they change nothing.
- AlexaLambda.Event: every field of the event is taken to be either absent (`None`) or a string. A `userId` that is present but null, which the source keeps as its own `None` key instead of `anonimo`, is not modelled. Neither is a null `session`, `user` or `intent`, or a slot value that is not a string; in the source these raise inside the `try` and give the technical-error response with the session ended (amazon/lambda.py:135-137).
- Publish failures in `amazon/lambda.py`: a publish that raises would abort the word loop into the error response after the earlier messages went out. The model has every publish succeed.
- Logging, `print`, the JSON encoding of payloads, and the unused initial `response_text` of the handler.
- The camera and classifier in `detection/predict_v3.py` (OpenCV, mediapipe, the landmark normalisation, `predict`/`predict_proba`): the outcome of each frame is an input (`HandOutcome`).
- Drawing, the MQTT connection and TLS setup, and the release of the camera after the loop.
- Confidence is an integer number of thousandths and time an integer number of milliseconds. The model does not capture floating-point values between two thousandths or two milliseconds.
- `COOLDOWN_SEGUNDOS` and `ultimo_envio_tiempo` are assigned and never read, so they have no counterpart.
- PyStr.LowerStr: `str.lower` is modelled for ASCII and Latin-1 upper-case letters only; every other character is left unchanged.
- `lambda/IoTToAlexa_Notifier.py`, `mqtt_subscriber.py`, `detection/record_data.py` and `detection/train_model.py` are not part of this model. They are network plumbing, data capture and training.
