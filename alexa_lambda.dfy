/**
 * The Alexa skill back-end (amazon/lambda.py): one invocation of the
 * handler reads the request, updates the per-user translator mode, sends
 * MQTT messages to the robotic hand and answers with a speech response.
 *
 * The MQTT publishes and the clearing of the robot's shadow are recorded in
 * an effect log; the value read from the robot's shadow is an input.
 */
module AlexaLambda {
  import opened Wrappers
  import opened PyStr
  import opened Seqs

  // -----------------------------------------------------------------------
  // Requests, messages and responses
  // -----------------------------------------------------------------------

  /**
   * The parts of the Alexa event the handler reads.  A field is `None` when
   * the event does not carry it; `phrase` is the value of the `palabra` slot
   * of the intent, `None` when any step of the path to it is missing.
   */
  datatype Event = Event(
    requestType: Option<string>,
    intentName: Option<string>,
    userId: Option<string>,
    phrase: Option<string>)

  /** The JSON body of a message to the hand. */
  datatype Payload = Payload(modo: string, palabra: string)

  /** What one invocation does to the outside world, in order. */
  datatype Effect =
    | Publish(topic: string, qos: nat, payload: Payload)
    | ClearRobotMessage

  /** The speech response returned to Alexa. */
  datatype Response = Response(version: string, speechType: string, text: string, shouldEndSession: bool)

  /** The new translator-mode table, the effects, and the response of one invocation. */
  datatype HandlerResult = HandlerResult(modo: map<string, bool>, effects: seq<Effect>, response: Response)

  const LaunchRequest := "LaunchRequest"
  const YesIntent := "AMAZON.YesIntent"
  const NoIntent := "AMAZON.NoIntent"
  const DeactivateIntent := "DesactivarModoIntent"
  const StopIntent := "AMAZON.StopIntent"
  const CancelIntent := "AMAZON.CancelIntent"
  const TranslateIntent := "TraducirIntent"
  const FallbackIntent := "AMAZON.FallbackIntent"

  const AnonymousUser := "anonimo"

  const LeftHandTopic := "traductor/mano_izquierda"
  const RightHandTopic := "traductor/mano_derecha"
  const SpellTopic := "traductor/deletrear"
  /** The hands that show a complete sign, in the order they are sent. */
  const SignTopics := [LeftHandTopic, RightHandTopic]
  const SignMode := "se\U{F1}a"
  const SpellMode := "deletreo"

  /** `SENIAS_COMPLETAS`: the words the hand shows as one complete sign. */
  const CompleteSigns: set<string> := {
    "hola", "gracias", "s\U{ED}", "no", "te quiero", "coraz\U{F3}n", "dedo", "permiso", "adi\U{F3}s"
  }

  const LaunchText := "Modo traductor activado. Dime una palabra."
  const YesText := "Te escucho. Dime qu\U{E9} quieres traducir."
  const NoText := "Entendido, hasta luego."
  const DeactivateText := "Modo traductor desactivado. Hasta luego."
  const FallbackText := "Para traducir, debes decir la frase completa. Por ejemplo: Traduce Hola."
  const UnknownText := "No entend\U{ED} el comando. Intenta decir: Traduce hola."
  const ErrorText := "Hubo un error t\U{E9}cnico. Intenta de nuevo."

  /** The launch greeting when the robot has left a word in its shadow. */
  function RobotSaysText(word: string): string {
    "El robot dice: " + word + ". \U{BF}Quieres responder?"
  }

  /** `build_response`: a version 1.0 plain-text speech of `text`, ending the session or not. */
  function BuildResponse(text: string, endSession: bool): (r: Response)
    ensures r.version == "1.0" && r.speechType == "PlainText"
    ensures r.text == text && r.shouldEndSession == endSession
  {
    Response("1.0", "PlainText", text, endSession)
  }

  /** The user the session belongs to, `"anonimo"` when the event names none. */
  function UserOf(ev: Event): string {
    if ev.userId.Some? then ev.userId.value else AnonymousUser
  }

  predicate IsExitIntent(name: Option<string>) {
    name == Some(DeactivateIntent) || name == Some(StopIntent) || name == Some(CancelIntent)
  }

  // -----------------------------------------------------------------------
  // The translation of one phrase
  // -----------------------------------------------------------------------

  /** One publish of `payload` on each of `topics`, in order, at QoS 0. */
  function PublishTo(topics: seq<string>, payload: Payload): seq<Effect> {
    if topics == [] then []
    else PublishTo(topics[..|topics| - 1], payload) + [Publish(topics[|topics| - 1], 0, payload)]
  }

  /** `enviar_senia_completa` or `enviar_palabra_para_deletrear`, as the word calls for. */
  function WordEffects(w: string): seq<Effect> {
    if w in CompleteSigns then PublishTo(SignTopics, Payload(SignMode, w))
    else [Publish(SpellTopic, 0, Payload(SpellMode, w))]
  }

  /** What the skill says about one word. */
  function Ack(w: string): string {
    if w in CompleteSigns then "Mostrando " + w + "." else "Deletreando " + w + "."
  }

  /** The messages sent for a list of words, word after word. */
  function PublishAll(ws: seq<string>): seq<Effect> {
    if ws == [] then [] else PublishAll(ws[..|ws| - 1]) + WordEffects(ws[|ws| - 1])
  }

  /** `respuestas_acumuladas` once every word of `ws` is handled. */
  function Acks(ws: seq<string>): seq<string> {
    if ws == [] then [] else Acks(ws[..|ws| - 1]) + [Ack(ws[|ws| - 1])]
  }

  /** `frase.split()` after `.lower()`. */
  function PhraseWords(phrase: string): seq<string> {
    Split(LowerStr(phrase))
  }

  // -----------------------------------------------------------------------
  // lambda_handler, as a function of the mode table, the event and the shadow
  // -----------------------------------------------------------------------

  /** Which branch of the handler a request takes. */
  datatype Branch = Launch | Yes | No | Leave | Translate | Fallback | Unknown

  /** The order in which the handler tests the request: the request type first, then the intent name. */
  function BranchOf(ev: Event): Branch {
    if ev.requestType == Some(LaunchRequest) then Launch
    else if ev.intentName == Some(YesIntent) then Yes
    else if ev.intentName == Some(NoIntent) then No
    else if IsExitIntent(ev.intentName) then Leave
    else if ev.intentName == Some(TranslateIntent) then Translate
    else if ev.intentName == Some(FallbackIntent) then Fallback
    else Unknown
  }

  /**
   * One invocation of `lambda_handler`.  `shadow` is what reading the
   * robot's shadow gives: `None` when the read fails or the field is absent.
   * A missing `palabra` slot raises inside the `try`, after the mode is set.
   */
  function Handle(modo: map<string, bool>, ev: Event, shadow: Option<string>): HandlerResult {
    var user := UserOf(ev);
    match BranchOf(ev)
    case Launch =>
      if shadow.Some? && shadow.value != [] then
        HandlerResult(modo[user := true], [ClearRobotMessage], BuildResponse(RobotSaysText(shadow.value), false))
      else
        HandlerResult(modo[user := true], [], BuildResponse(LaunchText, false))
    case Yes => HandlerResult(modo[user := true], [], BuildResponse(YesText, false))
    case No => HandlerResult(modo, [], BuildResponse(NoText, true))
    case Leave => HandlerResult(modo[user := false], [], BuildResponse(DeactivateText, true))
    case Translate =>
      var active := if user in modo && modo[user] then modo else modo[user := true];
      if ev.phrase.None? then HandlerResult(active, [], BuildResponse(ErrorText, true))
      else TranslatePhrase(active, ev.phrase.value)
    case Fallback => HandlerResult(modo, [], BuildResponse(FallbackText, false))
    case Unknown => HandlerResult(modo, [], BuildResponse(UnknownText, false))
  }

  /** The `TraducirIntent` branch once the phrase is read. */
  function TranslatePhrase(modo: map<string, bool>, phrase: string): HandlerResult {
    var ws := PhraseWords(phrase);
    HandlerResult(modo, PublishAll(ws), BuildResponse(JoinSpace(Acks(ws)), false))
  }

  // -----------------------------------------------------------------------
  // The skill as an object: the module-level table and the outside world
  // -----------------------------------------------------------------------

  class TranslatorSkill {
    /** `modo_traductor`: whether translation mode is on, per user. */
    var modoTraductor: map<string, bool>
    /** Everything sent to the robot so far, oldest first. */
    var effects: seq<Effect>

    constructor()
      ensures modoTraductor == map[] && effects == []
    {
      modoTraductor := map[];
      effects := [];
    }

    /** `enviar_senia_completa`: the payload to each hand in turn. */
    method SendCompleteSign(palabra: string)
      modifies this
      ensures modoTraductor == old(modoTraductor)
      ensures effects == old(effects) + PublishTo(SignTopics, Payload(SignMode, palabra))
    {
      var payload := Payload(SignMode, palabra);
      var j := 0;
      while j < |SignTopics|
        invariant 0 <= j <= |SignTopics|
        invariant modoTraductor == old(modoTraductor)
        invariant effects == old(effects) + PublishTo(SignTopics[..j], payload)
      {
        TakeGrow(SignTopics, j);
        AppendAssoc(old(effects), PublishTo(SignTopics[..j], payload), [Publish(SignTopics[j], 0, payload)]);
        effects := effects + [Publish(SignTopics[j], 0, payload)];
        j := j + 1;
      }
      TakeAll(SignTopics);
    }

    /** `enviar_palabra_para_deletrear`. */
    method SendWordToSpell(palabra: string)
      modifies this
      ensures modoTraductor == old(modoTraductor)
      ensures effects == old(effects) + [Publish(SpellTopic, 0, Payload(SpellMode, palabra))]
    {
      effects := effects + [Publish(SpellTopic, 0, Payload(SpellMode, palabra))];
    }

    /** The `TraducirIntent` loop: each word sent and acknowledged in turn. */
    method TranslateWords(palabras: seq<string>) returns (respuestas: seq<string>)
      modifies this
      ensures modoTraductor == old(modoTraductor)
      ensures effects == old(effects) + PublishAll(palabras)
      ensures respuestas == Acks(palabras)
    {
      respuestas := [];
      var i := 0;
      while i < |palabras|
        invariant 0 <= i <= |palabras|
        invariant modoTraductor == old(modoTraductor)
        invariant effects == old(effects) + PublishAll(palabras[..i])
        invariant respuestas == Acks(palabras[..i])
      {
        var palabra := palabras[i];
        PublishAllStep(palabras, i);
        AppendAssoc(old(effects), PublishAll(palabras[..i]), WordEffects(palabra));
        if palabra in CompleteSigns {
          SendCompleteSign(palabra);
          respuestas := respuestas + ["Mostrando " + palabra + "."];
        } else {
          SendWordToSpell(palabra);
          respuestas := respuestas + ["Deletreando " + palabra + "."];
        }
        i := i + 1;
      }
      TakeAll(palabras);
    }

    /** `lambda_handler`: the table and the effect log move exactly as `Handle` says. */
    method LambdaHandler(ev: Event, shadow: Option<string>) returns (resp: Response)
      modifies this
      ensures var h := Handle(old(modoTraductor), ev, shadow);
        && modoTraductor == h.modo
        && effects == old(effects) + h.effects
        && resp == h.response
    {
      var userId := UserOf(ev);
      match BranchOf(ev)
      case Launch =>
        var texto;
        if shadow.Some? && shadow.value != [] {
          texto := RobotSaysText(shadow.value);
          effects := effects + [ClearRobotMessage];
        } else {
          texto := LaunchText;
        }
        modoTraductor := modoTraductor[userId := true];
        resp := BuildResponse(texto, false);
      case Yes =>
        modoTraductor := modoTraductor[userId := true];
        resp := BuildResponse(YesText, false);
      case No =>
        resp := BuildResponse(NoText, true);
      case Leave =>
        modoTraductor := modoTraductor[userId := false];
        resp := BuildResponse(DeactivateText, true);
      case Translate =>
        if !(userId in modoTraductor && modoTraductor[userId]) {
          modoTraductor := modoTraductor[userId := true];
        }
        if ev.phrase.None? {
          resp := BuildResponse(ErrorText, true);
        } else {
          var palabras := PhraseWords(ev.phrase.value);
          var respuestas := TranslateWords(palabras);
          resp := BuildResponse(JoinSpace(respuestas), false);
        }
      case Fallback =>
        resp := BuildResponse(FallbackText, false);
      case Unknown =>
        resp := BuildResponse(UnknownText, false);
    }
  }

  // -----------------------------------------------------------------------
  // Properties
  // -----------------------------------------------------------------------

  lemma PublishAllStep(ws: seq<string>, i: nat)
    requires i < |ws|
    ensures PublishAll(ws[..i + 1]) == PublishAll(ws[..i]) + WordEffects(ws[i])
    ensures Acks(ws[..i + 1]) == Acks(ws[..i]) + [Ack(ws[i])]
  {
    TakeGrow(ws, i);
  }

  /** A complete sign goes to the left hand, then to the right hand; any other word to the speller. */
  lemma WordEffectsShape(w: string)
    ensures w in CompleteSigns ==> (WordEffects(w) ==
      [Publish(LeftHandTopic, 0, Payload(SignMode, w)), Publish(RightHandTopic, 0, Payload(SignMode, w))])
    ensures w !in CompleteSigns ==> WordEffects(w) == [Publish(SpellTopic, 0, Payload(SpellMode, w))]
  {
    var p := Payload(SignMode, w);
    assert SignTopics[..1] == [LeftHandTopic];
    assert [LeftHandTopic][..0] == [];
    assert PublishTo([LeftHandTopic], p) == [Publish(LeftHandTopic, 0, p)];
  }

  /** The messages of a phrase are those of its first part, then those of the rest. */
  lemma {:induction false} PublishAllConcat(a: seq<string>, b: seq<string>)
    ensures PublishAll(a + b) == PublishAll(a) + PublishAll(b)
    ensures Acks(a + b) == Acks(a) + Acks(b)
    decreases |b|
  {
    if b == [] {
      AppendEmpty(a);
      AppendEmpty(PublishAll(a));
      AppendEmpty(Acks(a));
    } else {
      var b' := b[..|b| - 1];
      DropLastOfConcat(a, b);
      PublishAllConcat(a, b');
      AppendAssoc(PublishAll(a), PublishAll(b'), WordEffects(b[|b| - 1]));
      AppendAssoc(Acks(a), Acks(b'), [Ack(b[|b| - 1])]);
    }
  }

  /** One acknowledgement per word, in the order of the words. */
  lemma {:induction false} AcksAt(ws: seq<string>, k: nat)
    requires k < |ws|
    ensures |Acks(ws)| == |ws|
    ensures Acks(ws)[k] == Ack(ws[k])
    decreases |ws|
  {
    var init := ws[..|ws| - 1];
    if k < |init| {
      AcksAt(init, k);
    } else {
      AcksLength(init);
    }
  }

  lemma {:induction false} AcksLength(ws: seq<string>)
    ensures |Acks(ws)| == |ws|
    decreases |ws|
  {
    if ws != [] {
      AcksLength(ws[..|ws| - 1]);
    }
  }

  /**
   * A message sent for a list of words is a QoS 0 publish of one of those
   * words, in sign mode on a hand topic exactly when the word is a complete
   * sign, in spelling mode on the spelling topic otherwise.
   */
  predicate MessageFor(e: Effect, ws: seq<string>) {
    && e.Publish?
    && e.qos == 0
    && e.payload.palabra in ws
    && (if e.payload.palabra in CompleteSigns
        then e.payload.modo == SignMode && e.topic in SignTopics
        else e.payload.modo == SpellMode && e.topic == SpellTopic)
  }

  lemma {:induction false} PublishAllMessages(ws: seq<string>)
    ensures forall e :: e in PublishAll(ws) ==> MessageFor(e, ws)
    decreases |ws|
  {
    if ws != [] {
      var init, w := ws[..|ws| - 1], ws[|ws| - 1];
      PublishAllMessages(init);
      WordEffectsShape(w);
      forall e | e in PublishAll(ws)
        ensures MessageFor(e, ws)
      {
        if e in PublishAll(init) {
          assert MessageFor(e, init);
          assert e.payload.palabra in ws by {
            var j :| 0 <= j < |init| && init[j] == e.payload.palabra;
            assert ws[j] == e.payload.palabra;
          }
        } else {
          assert e in WordEffects(w);
          assert ws[|ws| - 1] == w;
        }
      }
    }
  }

  /** The launch request turns translation on and greets with the robot's word, clearing it, if there is one. */
  lemma LaunchActivates(modo: map<string, bool>, ev: Event, shadow: Option<string>)
    requires ev.requestType == Some(LaunchRequest)
    ensures var h := Handle(modo, ev, shadow);
      && h.modo == modo[UserOf(ev) := true]
      && !h.response.shouldEndSession
      && (shadow.Some? && shadow.value != [] ==>
            h.effects == [ClearRobotMessage] && h.response.text == RobotSaysText(shadow.value))
      && (!(shadow.Some? && shadow.value != []) ==> h.effects == [] && h.response.text == LaunchText)
  {
  }

  /** Whatever the old table says, a translate request leaves translation on for its user. */
  lemma TranslateActivates(modo: map<string, bool>, ev: Event, shadow: Option<string>)
    requires BranchOf(ev) == Translate
    ensures var h := Handle(modo, ev, shadow);
      && h.modo == modo[UserOf(ev) := true]
      && (ev.phrase.None? ==> h.effects == [] && h.response == BuildResponse(ErrorText, true))
      && (ev.phrase.Some? ==>
            var ws := PhraseWords(ev.phrase.value);
            h.effects == PublishAll(ws) && h.response == BuildResponse(JoinSpace(Acks(ws)), false))
  {
    var user := UserOf(ev);
    if user in modo && modo[user] {
      assert modo[user := true] == modo;
    }
  }

  /** A translate request whose phrase has no words sends nothing and says nothing. */
  lemma BlankPhrase(p: string)
    requires forall i :: 0 <= i < |p| ==> IsSpace(p[i])
    ensures PhraseWords(p) == []
    ensures PublishAll(PhraseWords(p)) == []
    ensures JoinSpace(Acks(PhraseWords(p))) == ""
  {
    forall i | 0 <= i < |LowerStr(p)|
      ensures IsSpace(LowerStr(p)[i])
    {
      LowerStrAt(p, i);
      LowerKeepsKind(p[i]);
    }
    SplitBlank(LowerStr(p));
  }

  /** Only the entry of the requesting user may change; every other user keeps their mode. */
  lemma OtherUsersUnchanged(modo: map<string, bool>, ev: Event, shadow: Option<string>, u: string)
    requires u != UserOf(ev)
    ensures u in Handle(modo, ev, shadow).modo <==> u in modo
    ensures u in modo ==> Handle(modo, ev, shadow).modo[u] == modo[u]
  {
    ModeChanges(modo, ev, shadow);
    match BranchOf(ev)
    case Launch => LaunchActivates(modo, ev, shadow);
    case Translate => TranslateActivates(modo, ev, shadow);
    case _ =>
  }

  /** "Yes" turns translation on, leaving turns it off, and no other request but launch and translate touches it. */
  lemma ModeChanges(modo: map<string, bool>, ev: Event, shadow: Option<string>)
    ensures BranchOf(ev) == Yes ==> Handle(modo, ev, shadow).modo == modo[UserOf(ev) := true]
    ensures BranchOf(ev) == Leave ==> Handle(modo, ev, shadow).modo == modo[UserOf(ev) := false]
    ensures BranchOf(ev) in {No, Fallback, Unknown} ==> Handle(modo, ev, shadow).modo == modo
  {
  }

  /**
   * The session ends exactly on "no", on leaving translation mode, and on a
   * translate request without a phrase; every response is a version 1.0
   * plain-text speech.
   */
  lemma EndsSession(modo: map<string, bool>, ev: Event, shadow: Option<string>)
    ensures var r := Handle(modo, ev, shadow).response;
      && r.version == "1.0" && r.speechType == "PlainText"
      && (r.shouldEndSession <==>
            BranchOf(ev) == No || BranchOf(ev) == Leave || (BranchOf(ev) == Translate && ev.phrase.None?))
  {
  }

  /** Only launch and translate requests send anything to the robot. */
  lemma QuietRequests(modo: map<string, bool>, ev: Event, shadow: Option<string>)
    requires BranchOf(ev) != Launch && BranchOf(ev) != Translate
    ensures Handle(modo, ev, shadow).effects == []
  {
  }

  /**
   * Every message of a translation carries one word of the lower-cased
   * phrase, with the sign mode exactly for the complete signs.  In
   * particular the two-word sign "te quiero" is never sent: the words come
   * from `split()` and hold no blank.
   */
  lemma PhraseMessages(p: string)
    ensures forall e :: e in PublishAll(PhraseWords(p)) ==> MessageFor(e, PhraseWords(p))
    ensures forall e :: e in PublishAll(PhraseWords(p)) ==> e.Publish? && e.payload.palabra != "te quiero"
  {
    var ws := PhraseWords(p);
    PublishAllMessages(ws);
    SplitWords(LowerStr(p));
    forall e | e in PublishAll(ws)
      ensures e.Publish? && e.payload.palabra != "te quiero"
    {
      var j :| 0 <= j < |ws| && ws[j] == e.payload.palabra;
      WordNotTwoWords(ws[j]);
    }
  }

  /** A word of `split()` is never the two-word sign. */
  lemma WordNotTwoWords(w: string)
    requires IsWord(w)
    ensures w != "te quiero"
  {
    assert "te quiero"[2] == ' ';
  }
}
