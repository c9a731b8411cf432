/** The pure decisions of the Python speech server `main.py`: command-line
    boolean parsing, which model and vocoder files get loaded, how request
    parameters are looked up, how a style reference is interpreted, and the
    MaryTTS-compatible endpoints. Downloads, the file system and JSON
    decoding are oracles passed in as functions. */
module TtsServer {
  import opened Common

  // ---------------------------------------------------------------------------
  // convert_boolean
  // ---------------------------------------------------------------------------

  /** `str.lower` on one character, for the ASCII letters. */
  function AsciiLower(c: char): (l: char)
  {
    if 'A' <= c <= 'Z' then (c as int + 32) as char else c
  }

  function Lower(s: string): (l: string)
  {
    seq(|s|, i requires 0 <= i < |s| => AsciiLower(s[i]))
  }

  /** `x` spells the lower-case word `w` with any mix of upper and lower case. */
  predicate SpellsIgnoringCase(x: string, w: string)
  {
    && |x| == |w|
    && forall i :: 0 <= i < |x| ==>
         x[i] == w[i] || ('a' <= w[i] <= 'z' && x[i] as int == w[i] as int - 32)
  }

  lemma LowerMatches(x: string, w: string)
    requires forall i :: 0 <= i < |w| ==> !('A' <= w[i] <= 'Z')
    ensures Lower(x) == w <==> SpellsIgnoringCase(x, w)
  {
    if SpellsIgnoringCase(x, w) {
      assert forall i :: 0 <= i < |x| ==> Lower(x)[i] == w[i];
    }
    if Lower(x) == w {
      forall i | 0 <= i < |x|
        ensures x[i] == w[i] || ('a' <= w[i] <= 'z' && x[i] as int == w[i] as int - 32)
      {
        assert AsciiLower(x[i]) == w[i];
      }
    }
  }

  /** `convert_boolean`: true exactly for `true`, `1` and `yes`, in any case. */
  function ConvertBoolean(x: string): (r: bool)
    ensures r <==> SpellsIgnoringCase(x, "true") || x == "1" || SpellsIgnoringCase(x, "yes")
  {
    LowerMatches(x, "true");
    LowerMatches(x, "1");
    LowerMatches(x, "yes");
    Lower(x) in ["true", "1", "yes"]
  }

  // ---------------------------------------------------------------------------
  // Model and vocoder paths
  // ---------------------------------------------------------------------------

  /** The command-line arguments that decide what gets loaded. */
  datatype Args = Args(
    listModels: bool,
    modelName: Option<string>,
    vocoderName: Option<string>,
    configPath: Option<string>,
    modelPath: Option<string>,
    vocoderPath: Option<string>,
    vocoderConfigPath: Option<string>,
    speakersFilePath: Option<string>)

  /** What `ModelManager.download_model` returns: the checkpoint, its config,
      and the model item's `default_vocoder`. */
  datatype Download = Download(modelPath: string, configPath: Option<string>, defaultVocoder: Option<string>)

  /** The files handed to the synthesizer, the vocoder name finally in
      effect, and the names actually downloaded. */
  datatype Resolved = Resolved(
    modelPath: Option<string>,
    configPath: Option<string>,
    speakersFilePath: Option<string>,
    vocoderPath: Option<string>,
    vocoderConfigPath: Option<string>,
    vocoderName: Option<string>,
    modelDownload: Option<string>,
    vocoderDownload: Option<string>)

  datatype Startup = ListModelsAndExit | Load(paths: Resolved)

  /** Python truthiness of an optional string: present and non-empty. */
  predicate Truthy(s: Option<string>)
  {
    s.Some? && s.value != ""
  }

  /** The start-up path logic. */
  function ResolvePaths(args: Args, download: string -> Download): (r: Startup)
    ensures r.ListModelsAndExit? <==> args.listModels
    ensures r.Load? ==> var p := r.paths;
      // the model download happens exactly when a name is given and no truthy model path
      && (p.modelDownload.Some? <==> args.modelName.Some? && !Truthy(args.modelPath))
      && (p.modelDownload.Some? ==> p.modelDownload == args.modelName)
      // an explicit model path (even empty) wins, with its config and speakers file
      && (args.modelPath.Some? ==>
            p.modelPath == args.modelPath && p.configPath == args.configPath
            && p.speakersFilePath == args.speakersFilePath)
      // otherwise the downloaded files are used, and there is no speakers file
      && (args.modelPath.None? ==> p.speakersFilePath.None?)
      && (args.modelPath.None? && p.modelDownload.Some? ==>
            p.modelPath == Some(download(p.modelDownload.value).modelPath)
            && p.configPath == download(p.modelDownload.value).configPath)
      && (args.modelPath.None? && p.modelDownload.None? ==> p.modelPath.None? && p.configPath.None?)
      // a given vocoder name is kept; the model's default fills in only when none was given
      && (args.vocoderName.Some? ==> p.vocoderName == args.vocoderName)
      && (args.vocoderName.None? && p.modelDownload.Some? ==>
            p.vocoderName == download(p.modelDownload.value).defaultVocoder)
      && (args.vocoderName.None? && p.modelDownload.None? ==> p.vocoderName.None?)
      // the vocoder download happens exactly when a name is in effect and no truthy vocoder path
      && (p.vocoderDownload.Some? <==> p.vocoderName.Some? && !Truthy(args.vocoderPath))
      && (p.vocoderDownload.Some? ==> p.vocoderDownload == p.vocoderName)
      // an explicit vocoder path (even empty) wins over any downloaded one
      && (args.vocoderPath.Some? ==>
            p.vocoderPath == args.vocoderPath && p.vocoderConfigPath == args.vocoderConfigPath)
      && (args.vocoderPath.None? && p.vocoderDownload.Some? ==>
            p.vocoderPath == Some(download(p.vocoderDownload.value).modelPath)
            && p.vocoderConfigPath == download(p.vocoderDownload.value).configPath)
      && (args.vocoderPath.None? && p.vocoderDownload.None? ==>
            p.vocoderPath.None? && p.vocoderConfigPath.None?)
  {
    if args.listModels then ListModelsAndExit
    else
      // CASE2: released models
      var model :=
        if args.modelName.Some? && !Truthy(args.modelPath) then Some(download(args.modelName.value)) else None;
      var vocoderName :=
        if model.Some? && args.vocoderName.None? then model.value.defaultVocoder else args.vocoderName;
      var vocoder :=
        if vocoderName.Some? && !Truthy(args.vocoderPath) then Some(download(vocoderName.value)) else None;
      // CASE3: custom paths override
      var modelPath := if args.modelPath.Some? then args.modelPath
                       else if model.Some? then Some(model.value.modelPath) else None;
      var configPath := if args.modelPath.Some? then args.configPath
                        else if model.Some? then model.value.configPath else None;
      var speakers := if args.modelPath.Some? then args.speakersFilePath else None;
      var vocoderPath := if args.vocoderPath.Some? then args.vocoderPath
                         else if vocoder.Some? then Some(vocoder.value.modelPath) else None;
      var vocoderConfig := if args.vocoderPath.Some? then args.vocoderConfigPath
                           else if vocoder.Some? then vocoder.value.configPath else None;
      Load(Resolved(modelPath, configPath, speakers, vocoderPath, vocoderConfig, vocoderName,
                    if model.Some? then args.modelName else None,
                    if vocoder.Some? then vocoderName else None))
  }

  /** An empty `--model_path` is falsy, so the model is still downloaded, but
      it is not None, so the empty path then replaces the downloaded one. */
  lemma EmptyModelPathDownloadsThenOverrides(args: Args, download: string -> Download)
    requires !args.listModels && args.modelName.Some? && args.modelPath == Some("")
    ensures ResolvePaths(args, download).paths.modelDownload == args.modelName
    ensures ResolvePaths(args, download).paths.modelPath == Some("")
  {
  }

  // ---------------------------------------------------------------------------
  // /api/tts parameters
  // ---------------------------------------------------------------------------

  /** `d.get(key, "")` on a string-valued mapping: the request headers (whose
      names are case-insensitive in the server, so the map is keyed by the
      lower-case name) or the fields of a submitted form. */
  function GetOrEmpty(m: map<string, string>, key: string): (v: string)
    ensures key in m ==> v == m[key]
    ensures key !in m ==> v == ""
  {
    if key in m then m[key] else ""
  }

  /** The optional query parameters of `/api/tts`. */
  datatype TtsQuery = TtsQuery(text: Option<string>, speakerId: Option<string>,
                               languageId: Option<string>, styleWav: Option<string>)

  /** The synthesis inputs one `/api/tts` request resolves to. */
  datatype TtsInput<J> = TtsInput(text: string, speaker: string, language: string, style: StyleWav<J>)

  /** How a style reference is read: none, a `.wav` file on the server, or
      global style tokens decoded from JSON. */
  datatype StyleWav<J> = NoStyle | WavFile(path: string) | Gst(tokens: J)

  /** `json.loads` raised. */
  datatype DecodeError = DecodeError

  /** `style_wav_uri_to_dict`. `isFile` stands for `os.path.isfile`, and
      `jsonLoads` for `json.loads` (`None` when it raises). */
  function StyleWavUriToDict<J>(styleWav: Option<string>, isFile: string -> bool,
                                jsonLoads: string -> Option<J>): (r: Result<StyleWav<J>, DecodeError>)
    ensures !Truthy(styleWav) ==> r == Success(NoStyle)
    ensures Truthy(styleWav) && isFile(styleWav.value) && EndsWith(styleWav.value, ".wav") ==>
      r == Success(WavFile(styleWav.value))
    ensures Truthy(styleWav) && !(isFile(styleWav.value) && EndsWith(styleWav.value, ".wav")) ==>
      && (r.Failure? <==> jsonLoads(styleWav.value).None?)
      && (r.Success? ==> r.value == Gst(jsonLoads(styleWav.value).value))
  {
    if Truthy(styleWav) then
      var s := styleWav.value;
      if isFile(s) && EndsWith(s, ".wav") then Success(WavFile(s))
      else match jsonLoads(s)
        case Some(tokens) => Success(Gst(tokens))
        case None => Failure(DecodeError)
    else Success(NoStyle)
  }

  /** `json.loads` is consulted only for a truthy reference that is not an
      existing `.wav` file: elsewhere any two decoders give the same answer. */
  lemma StyleWavDecodesOnlyJson<J>(styleWav: Option<string>, isFile: string -> bool,
                                  loads1: string -> Option<J>, loads2: string -> Option<J>)
    requires !Truthy(styleWav) || (isFile(styleWav.value) && EndsWith(styleWav.value, ".wav"))
    ensures StyleWavUriToDict(styleWav, isFile, loads1) == StyleWavUriToDict(styleWav, isFile, loads2)
  {
  }

  /** In the JSON case only the decoder's answer on the reference itself
      matters, and a reference that decodes is never reported as a failure. */
  lemma StyleWavJsonOnlyAtReference<J>(s: string, isFile: string -> bool,
                                       loads1: string -> Option<J>, loads2: string -> Option<J>)
    requires s != "" && loads1(s) == loads2(s)
    ensures StyleWavUriToDict(Some(s), isFile, loads1) == StyleWavUriToDict(Some(s), isFile, loads2)
    ensures loads1(s).Some? ==> StyleWavUriToDict(Some(s), isFile, loads1).Success?
  {
  }

  /** Parameter lookup of `/api/tts`: a query parameter that is present wins,
      even when empty; otherwise the header of the same meaning is used,
      defaulting to the empty string. The style reference is then read. */
  function TtsParameters<J>(q: TtsQuery, headers: map<string, string>, isFile: string -> bool,
                            jsonLoads: string -> Option<J>): (r: Result<TtsInput<J>, DecodeError>)
    ensures var style := if q.styleWav.Some? then q.styleWav.value else GetOrEmpty(headers, "style-wav");
      match StyleWavUriToDict(Some(style), isFile, jsonLoads)
      case Failure(e) => r == Failure(e)
      case Success(st) => r.Success? && r.value.style == st
    ensures r.Success? ==>
      && r.value.text == q.text.GetOr(GetOrEmpty(headers, "text"))
      && r.value.speaker == q.speakerId.GetOr(GetOrEmpty(headers, "speaker-id"))
      && r.value.language == q.languageId.GetOr(GetOrEmpty(headers, "language-id"))
  {
    var text := if q.text.None? then GetOrEmpty(headers, "text") else q.text.value;
    var speaker := if q.speakerId.None? then GetOrEmpty(headers, "speaker-id") else q.speakerId.value;
    var language := if q.languageId.None? then GetOrEmpty(headers, "language-id") else q.languageId.value;
    var style := if q.styleWav.None? then GetOrEmpty(headers, "style-wav") else q.styleWav.value;
    match StyleWavUriToDict(Some(style), isFile, jsonLoads)
    case Failure(e) => Failure(e)
    case Success(st) => Success(TtsInput(text, speaker, language, st))
  }

  /** `v` is what `/api/tts` reads for one parameter: the query value when the
      query has the parameter, else the header of that name, else empty. */
  predicate FromQueryOrHeader(v: string, qv: Option<string>, headers: map<string, string>, name: string)
  {
    || (qv.Some? && v == qv.value)
    || (qv.None? && name in headers && v == headers[name])
    || (qv.None? && name !in headers && v == "")
  }

  /** Every parameter comes from its own query field or its own header; a
      style file is an existing file so named, and style tokens are the
      decoding of the value so read. */
  lemma TtsParametersProvenance<J>(q: TtsQuery, headers: map<string, string>, isFile: string -> bool,
                                   jsonLoads: string -> Option<J>)
    ensures var r := TtsParameters(q, headers, isFile, jsonLoads);
      r.Success? ==>
        && FromQueryOrHeader(r.value.text, q.text, headers, "text")
        && FromQueryOrHeader(r.value.speaker, q.speakerId, headers, "speaker-id")
        && FromQueryOrHeader(r.value.language, q.languageId, headers, "language-id")
        && (r.value.style.WavFile? ==>
              FromQueryOrHeader(r.value.style.path, q.styleWav, headers, "style-wav") && isFile(r.value.style.path))
        && (r.value.style.Gst? ==> exists src ::
              FromQueryOrHeader(src, q.styleWav, headers, "style-wav") && jsonLoads(src) == Some(r.value.style.tokens))
  {
    var r := TtsParameters(q, headers, isFile, jsonLoads);
    var src := if q.styleWav.Some? then q.styleWav.value else GetOrEmpty(headers, "style-wav");
    assert FromQueryOrHeader(src, q.styleWav, headers, "style-wav");
  }

  /** A parameter present in the query ignores the headers; with all four
      present, the headers do not matter at all. */
  lemma TtsParametersQueryWins<J>(q: TtsQuery, h1: map<string, string>, h2: map<string, string>,
                                  isFile: string -> bool, jsonLoads: string -> Option<J>)
    ensures var r1 := TtsParameters(q, h1, isFile, jsonLoads);
      var r2 := TtsParameters(q, h2, isFile, jsonLoads);
      && (r1.Success? && q.text.Some? ==> r1.value.text == q.text.value)
      && (r1.Success? && q.speakerId.Some? ==> r1.value.speaker == q.speakerId.value)
      && (r1.Success? && q.languageId.Some? ==> r1.value.language == q.languageId.value)
      && (q.styleWav.Some? ==>
            && (r1.Success? <==> r2.Success?)
            && (r1.Success? ==> r1.value.style == r2.value.style))
      && (q.text.Some? && q.speakerId.Some? && q.languageId.Some? && q.styleWav.Some? ==> r1 == r2)
  {
  }

  /** Only the `text`, `speaker-id`, `language-id` and `style-wav` headers are read. */
  lemma TtsParametersReadsFourHeaders<J>(q: TtsQuery, h1: map<string, string>, h2: map<string, string>,
                                         isFile: string -> bool, jsonLoads: string -> Option<J>)
    requires GetOrEmpty(h1, "text") == GetOrEmpty(h2, "text")
    requires GetOrEmpty(h1, "speaker-id") == GetOrEmpty(h2, "speaker-id")
    requires GetOrEmpty(h1, "language-id") == GetOrEmpty(h2, "language-id")
    requires GetOrEmpty(h1, "style-wav") == GetOrEmpty(h2, "style-wav")
    ensures TtsParameters(q, h1, isFile, jsonLoads) == TtsParameters(q, h2, isFile, jsonLoads)
  {
  }

  /** An empty query parameter hides the header: headers are consulted only
      for parameters missing from the query. */
  lemma QueryShadowsHeader<J>(headers: map<string, string>, isFile: string -> bool,
                              jsonLoads: string -> Option<J>)
    requires "text" in headers && headers["text"] != ""
    ensures var r := TtsParameters(TtsQuery(Some(""), None, None, None), headers, isFile, jsonLoads);
      r.Success? ==> r.value.text == ""
    ensures var r := TtsParameters(TtsQuery(None, None, None, None), headers, isFile, jsonLoads);
      r.Success? ==> r.value.text == headers["text"]
  {
  }

  // ---------------------------------------------------------------------------
  // MaryTTS compatibility
  // ---------------------------------------------------------------------------

  /** `str.split(sep)` with an explicit separator: the pieces between
      consecutive separators, empty ones included. */
  function Split(s: string, sep: char): (r: seq<string>)
    ensures |r| >= 1
    ensures Join(r, sep) == s
    ensures forall i :: 0 <= i < |r| ==> sep !in r[i]
  {
    if |s| == 0 then [""]
    else
      var rest := Split(s[1..], sep);
      if s[0] == sep then
        assert Join([""] + rest, sep) == [sep] + Join(rest, sep);
        [""] + rest
      else
        var r := [[s[0]] + rest[0]] + rest[1..];
        JoinHead(rest, sep);
        JoinHead(r, sep);
        assert r[1..] == rest[1..];
        r
  }

  /** The inverse of `Split`: the pieces with the separator between them.
      The text opens with the first piece, followed by a separator when more
      pieces come. */
  function Join(parts: seq<string>, sep: char): (r: string)
    ensures |parts| == 0 ==> r == ""
    ensures |parts| >= 1 ==> |parts[0]| <= |r| && r[..|parts[0]|] == parts[0]
    ensures |parts| >= 2 ==> |parts[0]| < |r| && r[|parts[0]|] == sep
  {
    if |parts| == 0 then ""
    else if |parts| == 1 then parts[0]
    else parts[0] + [sep] + Join(parts[1..], sep)
  }

  lemma JoinHead(parts: seq<string>, sep: char)
    requires |parts| >= 1
    ensures Join(parts, sep) == parts[0] + Join([""] + parts[1..], sep)
  {
    if |parts| >= 2 {
      var tail := [""] + parts[1..];
      assert tail[1..] == parts[1..];
    }
  }

  /** Splitting a join of separator-free pieces gives the pieces back. */
  lemma {:induction false} SplitJoin(parts: seq<string>, sep: char)
    requires |parts| >= 1
    requires forall i :: 0 <= i < |parts| ==> sep !in parts[i]
    ensures Split(Join(parts, sep), sep) == parts
    decreases |Join(parts, sep)|
  {
    var p := parts[0];
    if |p| > 0 {
      var shorter := [p[1..]] + parts[1..];
      JoinDropFirst(parts, sep);
      SplitJoin(shorter, sep);
      var s := Join(parts, sep);
      assert s[1..] == Join(shorter, sep);
    } else if |parts| >= 2 {
      SplitJoin(parts[1..], sep);
      var s := Join(parts, sep);
      assert s == [sep] + Join(parts[1..], sep);
      assert s[1..] == Join(parts[1..], sep);
      assert [""] + parts[1..] == parts;
    }
  }

  /** Dropping the first character of a non-empty first piece drops the first
      character of the join, and keeps the pieces separator-free. */
  lemma JoinDropFirst(parts: seq<string>, sep: char)
    requires |parts| >= 1 && |parts[0]| > 0
    requires forall i :: 0 <= i < |parts| ==> sep !in parts[i]
    ensures var shorter := [parts[0][1..]] + parts[1..];
      && Join(parts, sep) == [parts[0][0]] + Join(shorter, sep)
      && parts[0][0] != sep
      && (forall i :: 0 <= i < |shorter| ==> sep !in shorter[i])
      && [[parts[0][0]] + shorter[0]] + shorter[1..] == parts
  {
    var p := parts[0];
    var shorter := [p[1..]] + parts[1..];
    assert forall i :: 0 <= i < |shorter| ==> sep !in shorter[i] by {
      assert forall c :: c in p[1..] ==> c in p;
    }
    JoinHead(parts, sep);
    JoinHead(shorter, sep);
    assert shorter[1..] == parts[1..];
    assert p == [p[0]] + p[1..];
    assert [[p[0]] + shorter[0]] + shorter[1..] == parts;
  }

  /** `["", "en", "", "default"]`, the details used when no model name is set. */
  const DefaultDetails: seq<string> := ["", "en", "", "default"]

  /** The `model_details` list of `/locales` and `/voices`: the `/`-separated
      segments of the model name, or `DefaultDetails` without one. */
  function ModelDetails(modelName: Option<string>): (d: seq<string>)
    ensures modelName.None? ==> d == DefaultDetails
    ensures modelName.Some? ==>
      && |d| >= 1
      && Join(d, '/') == modelName.value
      && forall i :: 0 <= i < |d| ==> '/' !in d[i]
  {
    if modelName.Some? then Split(modelName.value, '/') else DefaultDetails
  }

  /** Indexing past the pieces raises `IndexError`, which the server turns into an error response. */
  datatype IndexError = IndexError

  /** `/locales`: the second `/`-separated segment of the model name. */
  function Locales(modelName: Option<string>): (r: Result<string, IndexError>)
    ensures modelName.None? ==> r == Success("en")
    ensures modelName.Some? ==>
      var parts := Split(modelName.value, '/');
      && (r.Success? <==> |parts| >= 2)
      && (r.Success? ==> r.value == parts[1] && '/' !in r.value)
  {
    var d := ModelDetails(modelName);
    if |d| > 1 then Success(d[1]) else Failure(IndexError)
  }

  /** `/voices`: the fourth segment, the second, and the letter `u`. */
  function Voices(modelName: Option<string>): (r: Result<string, IndexError>)
    ensures modelName.None? ==> r == Success("default en u\n")
    ensures modelName.Some? ==>
      var parts := Split(modelName.value, '/');
      && (r.Success? <==> |parts| >= 4)
      && (r.Success? ==> r.value == parts[3] + " " + parts[1] + " u\n")
  {
    var d := ModelDetails(modelName);
    assert DefaultDetails[3] + " " + DefaultDetails[1] + " u\n" == "default en u\n";
    if |d| > 3 then Success(d[3] + " " + d[1] + " u\n") else Failure(IndexError)
  }

  /** The server's default model name. */
  const DefaultModelName := "tts_models/en/ljspeech/tacotron2-DDC"

  lemma DefaultModelTailJoin()
    ensures Join(["en", "ljspeech", "tacotron2-DDC"], '/') == "en/ljspeech/tacotron2-DDC"
  {
    var parts := ["en", "ljspeech", "tacotron2-DDC"];
    assert parts[1..] == ["ljspeech", "tacotron2-DDC"];
    assert parts[2..] == ["tacotron2-DDC"];
    assert Join(parts[1..], '/') == "ljspeech/tacotron2-DDC" by { assert parts[1..][1..] == parts[2..]; }
  }

  lemma DefaultModelJoin()
    ensures Join(["tts_models", "en", "ljspeech", "tacotron2-DDC"], '/') == DefaultModelName
  {
    var parts := ["tts_models", "en", "ljspeech", "tacotron2-DDC"];
    assert parts[1..] == ["en", "ljspeech", "tacotron2-DDC"];
    DefaultModelTailJoin();
  }

  /** The default model name splits into its four segments. The name is a
      parameter equal to the constant, rather than the constant itself, so
      that the verifier does not unfold `Split` over the literal text. */
  lemma DefaultModelSplit(name: string)
    requires name == DefaultModelName
    ensures Split(name, '/') == ["tts_models", "en", "ljspeech", "tacotron2-DDC"]
  {
    DefaultModelJoin();
    SplitJoin(["tts_models", "en", "ljspeech", "tacotron2-DDC"], '/');
  }

  /** The default model name answers `/locales` with `en` and `/voices` with
      `tacotron2-DDC en u`. The name is passed in as in `DefaultModelSplit`. */
  lemma DefaultModelEndpoints(name: string)
    requires name == DefaultModelName
    ensures Locales(Some(name)) == Success("en")
    ensures Voices(Some(name)) == Success("tacotron2-DDC en u\n")
  {
    DefaultModelSplit(name);
    var parts := Split(name, '/');
    DefaultVoiceLine(parts[3], parts[1]);
  }

  lemma DefaultVoiceLine(voice: string, locale: string)
    requires voice == "tacotron2-DDC" && locale == "en"
    ensures voice + " " + locale + " u\n" == "tacotron2-DDC en u\n"
  {
  }

  /** The parameter names of `/process`. */
  const InputTextKey := "INPUT_TEXT"

  /** `/process` text selection: the `INPUT_TEXT` query parameter; if that is
      missing or empty on a POST, the form field; if that is empty too, the
      first value of the form-decoded body (`bodyQuery` is `None` when decoding
      or parsing raises, and a missing or empty value list keeps the empty
      text); on a GET, nothing else. */
  function ProcessText(inputText: Option<string>, isPost: bool, form: map<string, string>,
                       bodyQuery: Option<map<string, seq<string>>>): (r: string)
    ensures Truthy(inputText) ==> r == inputText.value
    ensures !Truthy(inputText) && !isPost ==> r == ""
    ensures !Truthy(inputText) && isPost && InputTextKey in form && form[InputTextKey] != "" ==>
      r == form[InputTextKey]
    ensures !Truthy(inputText) && isPost && GetOrEmpty(form, InputTextKey) == "" ==>
      r == (if bodyQuery.Some? && InputTextKey in bodyQuery.value && |bodyQuery.value[InputTextKey]| > 0
            then bodyQuery.value[InputTextKey][0] else "")
  {
    var text := inputText.GetOr("");
    if text == "" && isPost then
      var fromForm := GetOrEmpty(form, InputTextKey);
      if fromForm == "" then
        match bodyQuery
        case None => fromForm
        case Some(q) =>
          var values := if InputTextKey in q then q[InputTextKey] else [""];
          if |values| == 0 then fromForm else values[0]
      else fromForm
    else text
  }

  /** The text of `/process` always comes from one of its sources, or is empty:
      the query parameter, the form field, or the first value decoded from the body. */
  lemma ProcessTextProvenance(inputText: Option<string>, isPost: bool, form: map<string, string>,
                              bodyQuery: Option<map<string, seq<string>>>)
    ensures var r := ProcessText(inputText, isPost, form, bodyQuery);
      || r == ""
      || (inputText.Some? && r == inputText.value)
      || (isPost && InputTextKey in form && r == form[InputTextKey])
      || (isPost && bodyQuery.Some? && InputTextKey in bodyQuery.value
          && |bodyQuery.value[InputTextKey]| > 0 && r == bodyQuery.value[InputTextKey][0])
  {
  }

  /** A GET reads neither the form nor the body. */
  lemma ProcessTextGetIgnoresBody(inputText: Option<string>,
                                  form1: map<string, string>, body1: Option<map<string, seq<string>>>,
                                  form2: map<string, string>, body2: Option<map<string, seq<string>>>)
    ensures ProcessText(inputText, false, form1, body1) == ProcessText(inputText, false, form2, body2)
  {
  }
}
