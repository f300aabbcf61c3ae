/** The `dashboard` route's handling of the model's answer: read the `response_text` query parameter
    (default ""), clean it, decode it (empty text stands for an empty dictionary), and pop the game
    name out of the dictionary. The JSON decoder is a parameter: `loads(text)` is `Loaded(v)` when
    `json.loads(text)` returns `v`, `DecodeError` when it raises `json.JSONDecodeError`, and `Raised`
    when it raises any other exception. */
module App {
  import opened Json
  import opened Strip
  import opened Cleanup
  import opened PyDict

  /** The key popped out of the decoded dictionary. */
  const GameNameKey: string := "game_name"

  /** The one message shown when the answer does not decode. */
  const UnrecognisedGame: string := "Automatic Memory does not recognise that game."

  /** What the route renders. */
  datatype Outcome =
    /** The dashboard with `game_name` and the remaining console-to-crossplay dictionary. */
    | Rendered(gameName: Value, consoles: map<string, Value>)
    /** The dashboard with `error_message`. */
    | Failed(message: string)
    /** An exception escapes the handler, which catches only `json.JSONDecodeError`: the decoder
        raised something else, or the answer decoded to something other than an object, on which
        `pop` raises. The web framework answers with a server error. */
    | Uncaught

  /** The route as a function of the query parameter and the decoder. */
  function Respond(responseText: Option<string>, loads: string -> Loaded): Outcome {
    var text := Clean(responseText.GetOr(""));
    var decoded: Loaded := if text == "" then Loaded(Object(map[])) else loads(text);
    match decoded
    case DecodeError => Failed(UnrecognisedGame)
    case Raised => Uncaught
    case Loaded(Object(m)) =>
      var p := PopFrom(m, GameNameKey, Str(""));
      Rendered(p.value, p.rest)
    case Loaded(_) => Uncaught
  }

  /** The route as the handler runs it: the decoded dictionary is changed in place by `pop`. */
  method Dashboard(responseText: Option<string>, loads: string -> Loaded) returns (o: Outcome)
    ensures o == Respond(responseText, loads)
  {
    var text := responseText.GetOr("");
    text := Clean(text);
    var decoded: Value;
    if text != "" {
      var r := loads(text);
      if r.DecodeError? {
        return Failed(UnrecognisedGame);
      }
      if r.Raised? {
        return Uncaught;
      }
      decoded := r.value;
    } else {
      decoded := Object(map[]);
    }
    if !decoded.Object? {
      return Uncaught;
    }
    var responseDict := new Dict(decoded.fields);
    var gameName := responseDict.Pop(GameNameKey, Str(""));
    o := Rendered(gameName, responseDict.entries);
  }

  /** A missing parameter, or one the cleanup reduces to nothing, renders an empty dashboard with
      game name "" whatever the decoder would have said: the decoder is never consulted. */
  lemma EmptyAnswerRendersEmptyDashboard(responseText: Option<string>, loads: string -> Loaded)
    requires responseText.None? || Clean(responseText.value) == ""
    ensures Respond(responseText, loads) == Rendered(Str(""), map[])
  {
  }

  /** The decoder sees the cleaned text and nothing else: two decoders that agree on it give the same outcome. */
  lemma DecoderSeesCleanedText(t: string, loads1: string -> Loaded, loads2: string -> Loaded)
    requires loads1(Clean(t)) == loads2(Clean(t))
    ensures Respond(Some(t), loads1) == Respond(Some(t), loads2)
  {
  }

  /** The fixed error message appears exactly when non-empty cleaned text fails to decode. */
  lemma FailsExactlyOnDecodeError(t: string, loads: string -> Loaded)
    ensures Respond(Some(t), loads).Failed? <==> Clean(t) != "" && loads(Clean(t)).DecodeError?
    ensures Respond(Some(t), loads).Failed? ==> Respond(Some(t), loads).message == UnrecognisedGame
  {
  }

  /** A decoded object is split into its game name and the rest: the rest lacks "game_name", and
      putting the name back gives the decoded object again; without a "game_name" key the name
      is "" and the rest is the whole object. */
  lemma RenderedSplitsDecodedObject(t: string, loads: string -> Loaded, m: map<string, Value>)
    requires Clean(t) != "" && loads(Clean(t)) == Loaded(Object(m))
    ensures Respond(Some(t), loads).Rendered?
    ensures GameNameKey !in Respond(Some(t), loads).consoles
    ensures GameNameKey in m ==>
      Respond(Some(t), loads).consoles[GameNameKey := Respond(Some(t), loads).gameName] == m
    ensures GameNameKey !in m ==>
      Respond(Some(t), loads).gameName == Str("") && Respond(Some(t), loads).consoles == m
  {
    PopRestore(m, GameNameKey, Str(""));
  }

  /** An exception escapes the handler exactly when the decoder raises something other than
      `json.JSONDecodeError`, or decodes to a list, string, number, boolean or null. */
  lemma NonObjectIsUncaught(t: string, loads: string -> Loaded)
    ensures Respond(Some(t), loads) == Uncaught <==>
      Clean(t) != "" && (loads(Clean(t)).Raised? ||
                         (loads(Clean(t)).Loaded? && !loads(Clean(t)).value.Object?))
  {
  }

  /** A fenced JSON object and the bare object lead to the same outcome. */
  lemma FencedAndBareAgree(open: string, w1: string, body: string, w2: string, close: string,
                           loads: string -> Loaded)
    requires forall k :: 0 <= k < |open| ==> open[k] in FenceSet
    requires forall k :: 0 <= k < |w1| ==> IsSpace(w1[k])
    requires |body| > 0 && body[0] == '{' && body[|body| - 1] == '}'
    requires forall k :: 0 <= k < |w2| ==> IsSpace(w2[k])
    requires forall k :: 0 <= k < |close| ==> close[k] == '`'
    ensures Respond(Some(open + w1 + body + w2 + close), loads) == Respond(Some(body), loads)
  {
    CleanFencedObject(open, w1, body, w2, close);
    CleanKeepsBareObject(body);
  }
}
