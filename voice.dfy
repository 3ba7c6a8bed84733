/** The bookkeeping of the voice-input hook: the recognizer's locale, the
    transcript built from a result event, and the guarded start and stop
    requests. The browser's recognizer itself is foreign: the model records
    which calls are made on it and receives its events as method calls. */
module Voice {
  import opened Types

  /** The recognizer's locale tag for the selected language. */
  function Locale(language: Language): (tag: string)
    ensures LanguageOf(tag) == Some(language)
  {
    if language == En then "en-US"
    else if language == Hi then (assert "hi-IN" != "en-US"; "hi-IN")
    else (assert language == Ko; assert LanguageOf("ko-KR") == Some(Ko); "ko-KR")
  }

  /** The language a locale tag stands for, if any. */
  function LanguageOf(tag: string): Option<Language> {
    if tag == "en-US" then Some(En)
    else if tag == "hi-IN" then Some(Hi)
    else if tag == "ko-KR" then Some(Ko)
    else None
  }

  /** One entry of a result event: whether it is final, and the text of its
      first alternative. */
  datatype SpeechResult = SpeechResult(isFinal: bool, transcript: string)

  /** What one result adds to the transcript: its text if it is final,
      nothing otherwise. */
  function Piece(result: SpeechResult): string {
    if result.isFinal then result.transcript else ""
  }

  /** The texts of the final results from index `from` on, concatenated. */
  function FinalText(results: seq<SpeechResult>, from: nat): string
    decreases |results| - from
  {
    if from >= |results| then "" else Piece(results[from]) + FinalText(results, from + 1)
  }

  /** One step of the result loop, with the text gathered so far in front. */
  lemma FinalTextStep(text: string, results: seq<SpeechResult>, i: nat)
    requires i < |results|
    ensures text + FinalText(results, i) == (text + Piece(results[i])) + FinalText(results, i + 1)
  {
    assert FinalText(results, i) == Piece(results[i]) + FinalText(results, i + 1);
  }

  /** The loop of the result handler: walk the results from `resultIndex`
      and append the text of every final one. */
  method CollectFinal(results: seq<SpeechResult>, resultIndex: nat) returns (text: string)
    ensures text == FinalText(results, resultIndex)
  {
    text := "";
    var i := resultIndex;
    while i < |results|
      invariant resultIndex <= i
      invariant text + FinalText(results, i) == FinalText(results, resultIndex)
      decreases |results| - i
    {
      FinalTextStep(text, results, i);
      if results[i].isFinal {
        text := text + results[i].transcript;
      } else {
        assert text + Piece(results[i]) == text;
      }
      i := i + 1;
    }
    assert text + FinalText(results, i) == text;
  }

  /** The handler leaves the transcript alone exactly when every final
      result from `from` on has empty text (interim results never count). */
  lemma {:induction false} FinalTextEmptyIff(results: seq<SpeechResult>, from: nat)
    ensures FinalText(results, from) == "" <==>
      forall i :: from <= i < |results| && results[i].isFinal ==> results[i].transcript == ""
    decreases |results| - from
  {
    if from < |results| {
      FinalTextEmptyIff(results, from + 1);
    }
  }

  /** A call the hook makes on the browser's recognizer. */
  datatype RecognizerCall = Start | Stop | Abort

  /** How the hook configures the recognizer it creates. */
  datatype Recognizer = Recognizer(lang: string, continuous: bool, interimResults: bool)

  const NotSupported: string := "Speech recognition not supported"

  /** The state of one use of the voice-input hook. */
  class VoiceInput {
    var isListening: bool
    var transcript: string
    var error: Option<string>
    /** The recognizer the setup effect stored, if any. */
    var recognizer: Option<Recognizer>
    /** The calls made on the recognizer so far, oldest first. */
    var calls: seq<RecognizerCall>
    /** The `isSupported` value the hook returned at the last render; it is
        read from the recognizer reference while rendering. */
    var supportShown: bool

    /** The hook's initial state. */
    constructor ()
      ensures !isListening && transcript == "" && error == None
      ensures recognizer == None && calls == [] && !supportShown
    {
      isListening := false;
      transcript := "";
      error := None;
      recognizer := None;
      calls := [];
      supportShown := false;
    }

    /** The setup effect for `language` as written; `supported` tells
        whether the browser provides a speech recognizer. Setting the error
        re-renders, but storing the recognizer in the reference does not,
        so on a supporting browser the value last rendered stays as it was. */
    method SetupAsWritten(supported: bool, language: Language)
      modifies this
      ensures !supported ==> error == Some(NotSupported) && recognizer == old(recognizer)
      ensures !supported ==> supportShown == recognizer.Some?
      ensures supported ==> error == old(error) && recognizer == Some(Recognizer(Locale(language), false, true))
      ensures supported ==> supportShown == old(supportShown)
      ensures isListening == old(isListening) && transcript == old(transcript) && calls == old(calls)
    {
      if !supported {
        error := Some(NotSupported);
        supportShown := recognizer.Some?;
        return;
      }
      recognizer := Some(Recognizer(Locale(language), false, true));
    }

    /** The setup effect as intended: as SetupAsWritten, except that support
        is recorded in rendered state, so the page is rendered again once the
        recognizer exists and shows what the reference holds. */
    method Setup(supported: bool, language: Language)
      modifies this
      ensures !supported ==> error == Some(NotSupported) && recognizer == old(recognizer)
      ensures supported ==> error == old(error) && recognizer == Some(Recognizer(Locale(language), false, true))
      ensures supportShown == recognizer.Some?
      ensures isListening == old(isListening) && transcript == old(transcript) && calls == old(calls)
    {
      if !supported {
        error := Some(NotSupported);
      } else {
        recognizer := Some(Recognizer(Locale(language), false, true));
      }
      supportShown := recognizer.Some?;
    }

    /** The effect's cleanup, registered only when a recognizer was created:
        it aborts that recognizer. */
    method Cleanup()
      requires recognizer.Some?
      modifies this
      ensures calls == old(calls) + [Abort]
      ensures isListening == old(isListening) && transcript == old(transcript)
      ensures error == old(error) && recognizer == old(recognizer) && supportShown == old(supportShown)
    {
      calls := calls + [Abort];
    }

    /** The recognizer reports that it started. */
    method OnStart()
      modifies this
      ensures isListening
      ensures transcript == old(transcript) && error == old(error)
      ensures recognizer == old(recognizer) && supportShown == old(supportShown) && calls == old(calls)
    {
      isListening := true;
    }

    /** The recognizer reports that it ended. */
    method OnEnd()
      modifies this
      ensures !isListening
      ensures transcript == old(transcript) && error == old(error)
      ensures recognizer == old(recognizer) && supportShown == old(supportShown) && calls == old(calls)
    {
      isListening := false;
    }

    /** The recognizer reports the error `code`. */
    method OnError(code: string)
      modifies this
      ensures error == Some("Speech recognition error: " + code) && !isListening
      ensures transcript == old(transcript)
      ensures recognizer == old(recognizer) && supportShown == old(supportShown) && calls == old(calls)
    {
      error := Some("Speech recognition error: " + code);
      isListening := false;
    }

    /** A result event: the final texts from `resultIndex` on replace the
        transcript, unless they are all empty. */
    method OnResult(results: seq<SpeechResult>, resultIndex: nat)
      modifies this
      ensures var text := FinalText(results, resultIndex);
        transcript == if text != "" then text else old(transcript)
      ensures isListening == old(isListening) && error == old(error)
      ensures recognizer == old(recognizer) && supportShown == old(supportShown) && calls == old(calls)
    {
      var finalTranscript := CollectFinal(results, resultIndex);
      if finalTranscript != "" {
        transcript := finalTranscript;
      }
    }

    /** Press: acts only when a recognizer exists and is not listening; it
        then clears the error and the transcript and starts the recognizer. */
    method StartListening()
      modifies this
      ensures var acts := old(recognizer.Some? && !isListening);
        && (acts ==> error == None && transcript == "" && calls == old(calls) + [Start])
        && (!acts ==> error == old(error) && transcript == old(transcript) && calls == old(calls))
      ensures isListening == old(isListening) && recognizer == old(recognizer) && supportShown == old(supportShown)
    {
      if recognizer.Some? && !isListening {
        error := None;
        transcript := "";
        calls := calls + [Start];
      }
    }

    /** Release: stops the recognizer, but only while it is listening. */
    method StopListening()
      modifies this
      ensures calls == if old(recognizer.Some? && isListening) then old(calls) + [Stop] else old(calls)
      ensures isListening == old(isListening) && transcript == old(transcript)
      ensures error == old(error) && recognizer == old(recognizer) && supportShown == old(supportShown)
    {
      if recognizer.Some? && isListening {
        calls := calls + [Stop];
      }
    }
  }

  /** Mounting the order page on a browser with speech recognition, as
      written: the first render sees no recognizer, the setup effect stores
      one, and nothing renders again, so the page keeps reporting speech
      input as unsupported although a recognizer exists. */
  method MountAsWritten(language: Language) returns (supportShown: bool, recognizerStored: bool)
    ensures recognizerStored && !supportShown
  {
    var voice := new VoiceInput();
    voice.SetupAsWritten(true, language);
    supportShown, recognizerStored := voice.supportShown, voice.recognizer.Some?;
  }

  /** The same mount with the intended setup: the page reports support
      exactly when a recognizer exists. */
  method Mount(supported: bool, language: Language) returns (supportShown: bool, recognizerStored: bool)
    ensures recognizerStored == supported && supportShown == supported
  {
    var voice := new VoiceInput();
    voice.Setup(supported, language);
    supportShown, recognizerStored := voice.supportShown, voice.recognizer.Some?;
  }
}
