/**
 * The phrase builder of the sign detector (detection/predict_v3.py): each
 * camera frame may update the held prediction, then one key is read.  Space
 * appends the held character to the phrase under a debounce, Enter publishes the
 * phrase as one MQTT message and clears it, Backspace deletes the last
 * character and `q` ends the loop.
 *
 * Time is in integer milliseconds and confidence in integer thousandths;
 * the classifier's output, the key code and the clock reading are inputs of
 * each frame, and the MQTT publishes are recorded in a log.
 */
module PhraseBuilder {
  import opened Wrappers
  import opened Seqs

  /** `COOLDOWN_TECLA`, 0.5 s. */
  const CooldownTeclaMs := 500
  /** The 0.85 confidence a character needs to be appended, in thousandths. */
  const ConfidenceThreshold := 850
  const TopicPub := "robot/sign_detected"
  const PhraseMode := "frase_completa"
  /** The `confianza` of a sent phrase, 1.0, in thousandths. */
  const ManualConfidence := 1000

  const KeyBackspace := 8
  const KeyEnter := 13
  const KeySpace := 32
  /** `ord('q')`. */
  const KeyQuit := 113

  /** What the classifier gives for one frame. */
  datatype HandOutcome =
    | NoHand                                      // no hand landmarks in the frame
    | Predicted(character: string, confidence: int)   // `predict` and `predict_proba` both succeed
    | PredictFailed                               // `predict` raises
    | ProbaFailed(character: string)                  // `predict` succeeds, `predict_proba` raises

  /** One pass of the main loop: whether a frame was read, the classifier's outcome, the raw key and the clock. */
  datatype Frame = Frame(ok: bool, hand: HandOutcome, rawKey: int, nowMs: int)

  /** The JSON message published on Enter. */
  datatype Message = Message(topic: string, palabra: string, confianzaPerMille: int, modo: string, qos: nat)

  /**
   * Why the loop stopped, if it did.  `Crashed` is the `NameError` raised
   * when a character is held but no confidence was ever computed.
   */
  datatype Status = Running | Quit | CameraClosed | Crashed

  /** The loop's variables: `frase_actual`, `ultimo_agregado_tiempo`, the held prediction, and the publish log. */
  datatype Capture = Capture(
    buffer: string,
    lastAppendMs: int,
    character: Option<string>,
    confidence: Option<int>,
    status: Status,
    published: seq<Message>)

  /** The state before the first frame. */
  const Initial := Capture("", 0, None, None, Running, [])

  /** The message Enter sends for a phrase. */
  function PhraseMessage(phrase: string): Message {
    Message(TopicPub, phrase, ManualConfidence, PhraseMode, 1)
  }

  /** `cv2.waitKey(1) & 0xFF`: the low byte of the key code, 255 when no key was pressed (-1). */
  function KeyCode(rawKey: int): (key: int)
    ensures 0 <= key < 256
    ensures 0 <= rawKey < 256 ==> key == rawKey
    ensures rawKey == -1 ==> key == 255
    ensures (rawKey - key) % 256 == 0
  {
    rawKey % 256
  }

  /** The frame's prediction: both values on success, the character alone when only `predict_proba` fails. */
  function Observe(s: Capture, hand: HandOutcome): Capture {
    match hand
    case NoHand => s
    case PredictFailed => s
    case Predicted(l, c) => s.(character := Some(l), confidence := Some(c))
    case ProbaFailed(l) => s.(character := Some(l))
  }

  /** The three conditions under which Space appends the held character. */
  predicate CanAppend(s: Capture, nowMs: int) {
    && s.character.Some?
    && s.confidence.Some?
    && s.confidence.value > ConfidenceThreshold
    && nowMs - s.lastAppendMs > CooldownTeclaMs
  }

  /** `frase_actual[:-1]`. */
  function DropLast(s: string): string {
    if s == [] then [] else s[..|s| - 1]
  }

  /** The key-handling chain, for a key already reduced to its low byte. */
  function PressKey(s: Capture, key: int, nowMs: int): Capture {
    if key == KeySpace then
      if s.character.None? then s
      else if s.confidence.None? then s.(status := Crashed)
      else if s.confidence.value > ConfidenceThreshold && nowMs - s.lastAppendMs > CooldownTeclaMs then
        s.(buffer := s.buffer + s.character.value, lastAppendMs := nowMs)
      else s
    else if key == KeyEnter then
      if |s.buffer| > 0 then s.(published := s.published + [PhraseMessage(s.buffer)], buffer := "")
      else s
    else if key == KeyBackspace then
      s.(buffer := DropLast(s.buffer))
    else if key == KeyQuit then
      s.(status := Quit)
    else s
  }

  /** One iteration of the main loop. */
  function Step(s: Capture, f: Frame): Capture {
    if !f.ok then s.(status := CameraClosed)
    else PressKey(Observe(s, f.hand), KeyCode(f.rawKey), f.nowMs)
  }

  /** The loop over a sequence of frames; once it has stopped, later frames are not read. */
  function Run(s: Capture, frames: seq<Frame>): Capture {
    if frames == [] then s
    else
      var p := Run(s, frames[..|frames| - 1]);
      if p.status == Running then Step(p, frames[|frames| - 1]) else p
  }

  /** Whether the frame makes the running loop append a character. */
  predicate AppendsAt(p: Capture, f: Frame) {
    f.ok && KeyCode(f.rawKey) == KeySpace && CanAppend(Observe(p, f.hand), f.nowMs)
  }

  /** The clock readings at which labels were appended during a run, in order. */
  function AppendTimes(s: Capture, frames: seq<Frame>): seq<int> {
    if frames == [] then []
    else
      var p := Run(s, frames[..|frames| - 1]);
      var f := frames[|frames| - 1];
      AppendTimes(s, frames[..|frames| - 1]) + (if p.status == Running && AppendsAt(p, f) then [f.nowMs] else [])
  }

  // -----------------------------------------------------------------------
  // The main loop as an object
  // -----------------------------------------------------------------------

  class CaptureSession {
    var fraseActual: string
    var ultimoAgregadoMs: int
    var predictedCharacter: Option<string>
    var confidence: Option<int>
    var status: Status
    /** Everything published on `robot/sign_detected`, oldest first. */
    var published: seq<Message>

    function State(): Capture
      reads this
    {
      Capture(fraseActual, ultimoAgregadoMs, predictedCharacter, confidence, status, published)
    }

    constructor()
      ensures State() == Initial
    {
      fraseActual := "";
      ultimoAgregadoMs := 0;
      predictedCharacter := None;
      confidence := None;
      status := Running;
      published := [];
    }

    /** The `try` block around the classifier: the held values are overwritten as far as it got. */
    method ObserveHand(hand: HandOutcome)
      modifies this
      ensures State() == Observe(old(State()), hand)
    {
      match hand
      case NoHand =>
      case PredictFailed =>
      case Predicted(l, c) =>
        predictedCharacter := Some(l);
        confidence := Some(c);
      case ProbaFailed(l) =>
        predictedCharacter := Some(l);
    }

    /** The keyboard control: one action for the key read in this iteration. */
    method HandleKey(rawKey: int, nowMs: int)
      modifies this
      ensures State() == PressKey(old(State()), KeyCode(rawKey), nowMs)
    {
      var key := rawKey % 256;
      if key == KeySpace {
        if predictedCharacter.Some? {
          if confidence.None? {
            status := Crashed;
          } else if confidence.value > ConfidenceThreshold {
            if nowMs - ultimoAgregadoMs > CooldownTeclaMs {
              fraseActual := fraseActual + predictedCharacter.value;
              ultimoAgregadoMs := nowMs;
            }
          }
        }
      } else if key == KeyEnter {
        if |fraseActual| > 0 {
          published := published + [PhraseMessage(fraseActual)];
          fraseActual := "";
        }
      } else if key == KeyBackspace {
        fraseActual := DropLast(fraseActual);
      } else if key == KeyQuit {
        status := Quit;
      }
    }

    /** One pass of `while True`. */
    method Iteration(f: Frame)
      modifies this
      ensures State() == Step(old(State()), f)
    {
      if !f.ok {
        status := CameraClosed;
      } else {
        ObserveHand(f.hand);
        HandleKey(f.rawKey, f.nowMs);
      }
    }

    /** The main loop over the frames the camera delivers, until it stops. */
    method RunLoop(frames: seq<Frame>)
      modifies this
      ensures State() == Run(old(State()), frames)
    {
      var i := 0;
      while i < |frames| && status == Running
        invariant 0 <= i <= |frames|
        invariant State() == Run(old(State()), frames[..i])
      {
        RunStep(old(State()), frames, i);
        Iteration(frames[i]);
        i := i + 1;
      }
      RunStopped(old(State()), frames, i);
    }
  }

  // -----------------------------------------------------------------------
  // Properties
  // -----------------------------------------------------------------------

  lemma RunStep(s: Capture, frames: seq<Frame>, i: nat)
    requires i < |frames| && Run(s, frames[..i]).status == Running
    ensures Run(s, frames[..i + 1]) == Step(Run(s, frames[..i]), frames[i])
    ensures AppendTimes(s, frames[..i + 1]) ==
      AppendTimes(s, frames[..i]) + (if AppendsAt(Run(s, frames[..i]), frames[i]) then [frames[i].nowMs] else [])
  {
    TakeGrow(frames, i);
  }

  /** Once the loop has stopped, the remaining frames change nothing. */
  lemma {:induction false} RunStopped(s: Capture, frames: seq<Frame>, i: nat)
    requires i <= |frames|
    requires i == |frames| || Run(s, frames[..i]).status != Running
    ensures Run(s, frames) == Run(s, frames[..i])
    decreases |frames| - i
  {
    if i == |frames| {
      TakeAll(frames);
    } else {
      RunHalted(s, frames, i, |frames|);
      TakeAll(frames);
    }
  }

  lemma {:induction false} RunHalted(s: Capture, frames: seq<Frame>, i: nat, j: nat)
    requires i <= j <= |frames|
    requires Run(s, frames[..i]).status != Running
    ensures Run(s, frames[..j]) == Run(s, frames[..i])
    decreases j
  {
    if j > i {
      RunHalted(s, frames, i, j - 1);
      TakeGrow(frames, j - 1);
    }
  }

  /**
   * Space appends the held character exactly when a character is held, its
   * confidence exceeds 0.85 and more than 0.5 s have passed since the last
   * append; the append time is then the current time, and otherwise neither
   * the phrase nor the time changes.  A Space that does not append changes
   * nothing, except that a character held without any confidence stops the loop.
   */
  lemma SpaceKey(s: Capture, nowMs: int)
    ensures var r := PressKey(s, KeySpace, nowMs);
      && (r.lastAppendMs != s.lastAppendMs <==> CanAppend(s, nowMs))
      && (CanAppend(s, nowMs) ==> r == s.(buffer := s.buffer + s.character.value, lastAppendMs := nowMs))
      && (r.status == Crashed <==> (s.character.Some? && s.confidence.None?) || s.status == Crashed)
      && (!CanAppend(s, nowMs) ==> r.buffer == s.buffer && r.lastAppendMs == s.lastAppendMs)
      && (!CanAppend(s, nowMs) ==> r == (if s.character.Some? && s.confidence.None? then s.(status := Crashed) else s))
      && r.published == s.published
  {
  }

  /** Enter on a non-empty phrase publishes it once, as a whole, and empties the phrase; on an empty phrase it does nothing. */
  lemma EnterKey(s: Capture, nowMs: int)
    ensures var r := PressKey(s, KeyEnter, nowMs);
      && (s.buffer != [] ==>
            r == s.(published := s.published + [PhraseMessage(s.buffer)], buffer := []))
      && (s.buffer == [] ==> r == s)
  {
  }

  /** The send path has no cooldown: what Enter does depends neither on the clock nor on the last append. */
  lemma EnterIgnoresTime(s: Capture, t1: int, t2: int, last: int)
    ensures PressKey(s, KeyEnter, t1).(lastAppendMs := last) == PressKey(s.(lastAppendMs := last), KeyEnter, t2)
  {
  }

  /** Backspace drops exactly the last character; an empty phrase stays empty. */
  lemma BackspaceKey(s: Capture, nowMs: int)
    ensures var r := PressKey(s, KeyBackspace, nowMs);
      && (s.buffer != [] ==> r.buffer + [s.buffer[|s.buffer| - 1]] == s.buffer)
      && (s.buffer == [] ==> r.buffer == [])
      && r == s.(buffer := r.buffer)
  {
  }

  /** `q` ends the loop and changes nothing else. */
  lemma QuitKey(s: Capture, nowMs: int)
    ensures PressKey(s, KeyQuit, nowMs) == s.(status := Quit)
  {
  }

  /** Any other key, including "no key" (255), changes nothing. */
  lemma OtherKeys(s: Capture, key: int, nowMs: int)
    requires key != KeySpace && key != KeyEnter && key != KeyBackspace && key != KeyQuit
    ensures PressKey(s, key, nowMs) == s
  {
  }

  /**
   * The prediction Space uses is the last one computed: a classified frame
   * replaces the held character (and the confidence, when `predict_proba`
   * succeeds), and a frame without a hand or whose prediction fails leaves
   * it as it was.
   */
  lemma HeldPrediction(s: Capture, hand: HandOutcome)
    ensures var r := Observe(s, hand);
      && r.buffer == s.buffer && r.lastAppendMs == s.lastAppendMs && r.status == s.status
      && r.published == s.published
      && (r.character == s.character || ((hand.Predicted? || hand.ProbaFailed?) && r.character == Some(hand.character)))
      && (r.confidence == s.confidence || (hand.Predicted? && r.confidence == Some(hand.confidence)))
      && (hand.NoHand? || hand.PredictFailed? ==> r == s)
      && (hand.Predicted? ==> r == s.(character := Some(hand.character), confidence := Some(hand.confidence)))
      && (hand.ProbaFailed? ==> r == s.(character := Some(hand.character)))
  {
  }

  /**
   * One iteration never both appends and sends, nor appends or sends and
   * also stops; only an append moves the last-append time.
   */
  lemma {:induction false} StepOneAction(p: Capture, f: Frame)
    ensures var r := Step(p, f);
      && (r.lastAppendMs == if AppendsAt(p, f) then f.nowMs else p.lastAppendMs)
      && (AppendsAt(p, f) ==> r.published == p.published && r.status == p.status)
      && (r.published != p.published ==>
            r.published == p.published + [PhraseMessage(p.buffer)] && p.buffer != [] && r.buffer == []
            && r.lastAppendMs == p.lastAppendMs && r.status == p.status)
  {
  }

  /**
   * Append times more than the cooldown after `base` and more than the
   * cooldown apart from each other.
   */
  predicate Spaced(ts: seq<int>, base: int) {
    && (forall i :: 0 <= i < |ts| ==> ts[i] - base > CooldownTeclaMs)
    && (forall i, j :: 0 <= i < j < |ts| ==> ts[j] - ts[i] > CooldownTeclaMs)
  }

  /** The latest of the times, or `base` when there are none. */
  function Latest(ts: seq<int>, base: int): int {
    if ts == [] then base else ts[|ts| - 1]
  }

  /** A time more than the cooldown after the latest keeps the times spaced. */
  lemma SpacedSnoc(ts: seq<int>, base: int, t: int)
    requires Spaced(ts, base)
    requires t - Latest(ts, base) > CooldownTeclaMs
    ensures Spaced(ts + [t], base)
    ensures Latest(ts + [t], base) == t
  {
    var ts' := ts + [t];
    forall i | 0 <= i < |ts|
      ensures t - ts[i] > CooldownTeclaMs
    {
      if i < |ts| - 1 {
        assert ts[|ts| - 1] - ts[i] > CooldownTeclaMs;
      }
    }
    assert forall i :: 0 <= i < |ts| ==> ts'[i] == ts[i];
  }

  lemma RunUnfold(s: Capture, frames: seq<Frame>)
    requires frames != []
    ensures var p := Run(s, frames[..|frames| - 1]);
      var f := frames[|frames| - 1];
      && Run(s, frames) == (if p.status == Running then Step(p, f) else p)
      && AppendTimes(s, frames) ==
           AppendTimes(s, frames[..|frames| - 1]) + (if p.status == Running && AppendsAt(p, f) then [f.nowMs] else [])
  {
  }

  /**
   * The debounce: during a run, every character is appended more than 0.5 s
   * after the previous append (and after the append time the run started
   * with), so any two appends are more than 0.5 s apart; the last append
   * time the loop holds is the time of its latest append.
   */
  lemma {:induction false} DebounceSpacing(s: Capture, frames: seq<Frame>)
    ensures Spaced(AppendTimes(s, frames), s.lastAppendMs)
    ensures Run(s, frames).lastAppendMs == Latest(AppendTimes(s, frames), s.lastAppendMs)
    decreases |frames|
  {
    if frames != [] {
      var init, f := frames[..|frames| - 1], frames[|frames| - 1];
      DebounceSpacing(s, init);
      RunUnfold(s, frames);
      var p := Run(s, init);
      var ts0 := AppendTimes(s, init);
      if p.status == Running {
        StepOneAction(p, f);
        if AppendsAt(p, f) {
          SpacedSnoc(ts0, s.lastAppendMs, f.nowMs);
        } else {
          AppendEmpty(ts0);
        }
      } else {
        AppendEmpty(ts0);
      }
    }
  }

  /**
   * Everything a run publishes is the whole of a non-empty phrase, on
   * `robot/sign_detected`, mode `frase_completa`, QoS 1; nothing published
   * before is lost.
   */
  lemma {:induction false} RunPublishes(s: Capture, frames: seq<Frame>)
    ensures var r := Run(s, frames);
      && |s.published| <= |r.published|
      && r.published[..|s.published|] == s.published
      && forall k :: |s.published| <= k < |r.published| ==>
           r.published[k].palabra != [] && r.published[k] == PhraseMessage(r.published[k].palabra)
    decreases |frames|
  {
    if frames != [] {
      var init, f := frames[..|frames| - 1], frames[|frames| - 1];
      RunPublishes(s, init);
      var p := Run(s, init);
      if p.status == Running {
        StepOneAction(p, f);
        var r := Step(p, f);
        if r.published != p.published {
          assert r.published[..|p.published|] == p.published;
          assert r.published[..|s.published|] == p.published[..|s.published|];
        }
      }
    }
  }
}
