/** The conversion options sent along with the audio: four defaults, the
    language choice, and the user's `-O key=value,…` overrides with their
    values coerced to booleans, integers, floats or strings. */
module Options {
  import opened Wrappers
  import opened Strings
  import opened Decimal
  import opened Tokens

  /** A coerced option value. A float keeps its literal: the model does not
      compute the double `parseFloat` would give. */
  datatype OptionValue = Bool(flag: bool) | Int(number: nat) | Float(literal: string) | Str(text: string)

  /** The two groups of a matched `key=value` piece. */
  datatype Setting = Setting(key: string, value: string)

  type OptionMap = map<string, OptionValue>

  const InvalidSpecification := "invalid option specification"

  /** `^(\S+)=(\S+)$` matches `piece` with groups `key` and `value`: both
      non-empty, no whitespace anywhere, and, because the first group is
      greedy, the `=` between them is the last one that still leaves a
      character for the value. */
  predicate Matches(piece: string, key: string, value: string) {
    && NoSpace(piece) && |key| > 0 && |value| > 0
    && piece == key + "=" + value
    && forall k :: 0 <= k < |value| - 1 ==> value[k] != '='
  }

  /** The pattern matches at all: no whitespace, and an `=` with at least one
      character on either side. */
  predicate IsAssignment(piece: string) {
    NoSpace(piece) && exists i :: 0 < i < |piece| - 1 && piece[i] == '='
  }

  /** The largest position in `1..i` holding `=`, or 0 when there is none. */
  function LastEquals(p: string, i: nat): (r: nat)
    requires i < |p|
    ensures r <= i
    ensures r > 0 ==> p[r] == '='
    ensures forall k :: r < k <= i ==> p[k] != '='
    decreases i
  {
    if i == 0 then 0
    else if p[i] == '=' then i
    else LastEquals(p, i - 1)
  }

  /** One comma-separated piece of the `-O` argument, split at its `=`. */
  function ParsePiece(piece: string): (r: Option<Setting>)
    ensures r.Some? ==> Matches(piece, r.value.key, r.value.value)
  {
    if |piece| < 3 || !NoSpace(piece) then None
    else
      var i := LastEquals(piece, |piece| - 2);
      if i == 0 then None
      else
        var s := Setting(piece[..i], piece[i + 1..]);
        assert piece == s.key + "=" + s.value;
        Some(s)
  }

  /** The parser returns exactly the groups the pattern would capture. */
  lemma ParsePieceMatches(piece: string, key: string, value: string)
    ensures ParsePiece(piece) == Some(Setting(key, value)) <==> Matches(piece, key, value)
  {
    if Matches(piece, key, value) {
      var n := |key|;
      assert piece[n] == '=';
      forall k | n < k <= |piece| - 2 ensures piece[k] != '=' {
        assert piece[k] == value[k - n - 1];
      }
      var i := LastEquals(piece, |piece| - 2);
      assert i == n;
      assert piece[..n] == key;
      assert piece[n + 1..] == value;
    }
  }

  /** The parser accepts exactly the pieces the pattern matches. */
  lemma ParsePieceAccepts(piece: string)
    ensures ParsePiece(piece).Some? <==> IsAssignment(piece)
  {
    if IsAssignment(piece) {
      var j :| 0 < j < |piece| - 1 && piece[j] == '=';
      assert LastEquals(piece, |piece| - 2) >= j;
    }
    if ParsePiece(piece).Some? {
      assert piece[LastEquals(piece, |piece| - 2)] == '=';
    }
  }

  /** Printable ASCII other than the blank is no white space. */
  lemma VisibleNoSpace(s: string)
    requires forall k :: 0 <= k < |s| ==> '!' <= s[k] <= '~'
    ensures NoSpace(s)
  {
  }

  /** The key runs to the last `=` that leaves a value. */
  lemma GreedyKeyExamples()
    ensures ParsePiece("a=b=c") == Some(Setting("a=b", "c"))
    ensures ParsePiece("a=b=") == Some(Setting("a", "b="))
  {
    VisibleNoSpace("a=b=c");
    VisibleNoSpace("a=b=");
    ParsePieceMatches("a=b=c", "a=b", "c");
    ParsePieceMatches("a=b=", "a", "b=");
  }

  /** A piece without a value, or with white space, is no assignment. */
  lemma RejectedPieceExamples()
    ensures ParsePiece("a=") == None
    ensures ParsePiece("a = b") == None
  {
    assert IsSpace("a = b"[1]);
  }

  /** `/^\d+$/`. */
  predicate IsIntLiteral(v: string) {
    |v| > 0 && AllDigits(v)
  }

  /** `/^(?:\d*\.\d+|\d+\.\d*)$/`: a dot with digits around it and at least
      one digit on one of its sides. */
  predicate IsFloatLiteral(v: string) {
    exists i :: 0 <= i < |v| && v[i] == '.' && AllDigits(v[..i]) && AllDigits(v[i + 1..]) && |v| >= 2
  }

  /** The float test as computed: everything around the first dot is digits. */
  predicate FloatShape(v: string) {
    var i := IndexOf(v, '.');
    i < |v| && |v| >= 2 && AllDigits(v[..i]) && AllDigits(v[i + 1..])
  }

  lemma FloatShapeIsLiteral(v: string)
    ensures FloatShape(v) <==> IsFloatLiteral(v)
  {
    if IsFloatLiteral(v) {
      var i :| 0 <= i < |v| && v[i] == '.' && AllDigits(v[..i]) && AllDigits(v[i + 1..]) && |v| >= 2;
      FirstDot(v, i);
    }
  }

  /** A dot after nothing but digits is the first dot. */
  lemma FirstDot(v: string, i: nat)
    requires i < |v| && v[i] == '.' && AllDigits(v[..i])
    ensures IndexOf(v, '.') == i
  {
    DigitsHaveNoDot(v[..i]);
    assert v == v[..i] + v[i..];
    IndexOfAfterPrefix(v[..i], v[i..], '.');
  }

  lemma DigitsHaveNoDot(s: string)
    requires AllDigits(s)
    ensures '.' !in s
  {
    assert !IsDigit('.');
  }

  /** No text is of two of the classes the coercion tells apart. */
  lemma ClassesDisjoint(v: string)
    ensures IsIntLiteral(v) ==> v != "true" && v != "false"
    ensures IsFloatLiteral(v) ==> v != "true" && v != "false" && !IsIntLiteral(v)
  {
    assert !IsDigit('t') && !IsDigit('f');
    assert "true"[0] == 't' && "false"[0] == 'f';
    if IsFloatLiteral(v) {
      var i :| 0 <= i < |v| && v[i] == '.' && AllDigits(v[..i]) && AllDigits(v[i + 1..]) && |v| >= 2;
      assert !IsDigit(v[i]);
    }
  }

  /** The coercion of an option value, tried in the program's order. */
  function Coerce(v: string): (r: OptionValue)
    ensures r.Bool? <==> v == "true" || v == "false"
    ensures r.Bool? ==> (r.flag <==> v == "true")
    ensures r.Int? <==> IsIntLiteral(v)
    ensures r.Int? ==> r.number == ParseDigits(v)
    ensures r.Float? <==> IsFloatLiteral(v)
    ensures r.Float? ==> r.literal == v
    ensures r.Str? ==> r.text == v
  {
    FloatShapeIsLiteral(v);
    ClassesDisjoint(v);
    if v == "true" then Bool(true)
    else if v == "false" then Bool(false)
    else if IsIntLiteral(v) then Int(ParseDigits(v))
    else if FloatShape(v) then Float(v)
    else Str(v)
  }

  /** Leading zeros are read past, and a dot needs a digit on one side
      only. */
  lemma NumberCoerceExamples()
    ensures Coerce("007") == Int(7)
    ensures Coerce("1.") == Float("1.")
    ensures Coerce(".5") == Float(".5")
  {
    assert ParseDigits("007") == 7 by {
      assert "007"[..2] == "00" && "00"[..1] == "0" && "0"[..0] == "";
    }
    assert "1."[..1] == "1" && "1."[2..] == "";
    assert ".5"[..0] == "" && ".5"[1..] == "5";
    assert IsFloatLiteral("1.") && IsFloatLiteral(".5");
  }

  /** A lone dot and a capitalised `True` stay strings. */
  lemma TextCoerceExamples()
    ensures Coerce(".") == Str(".")
    ensures Coerce("True") == Str("True")
    ensures Coerce("false") == Bool(false)
  {
    assert !IsIntLiteral(".") && !IsIntLiteral("True") by {
      assert !IsDigit("."[0]) && !IsDigit("True"[0]);
    }
    assert !IsFloatLiteral("True") by {
      assert forall i :: 0 <= i < 4 ==> "True"[i] != '.';
    }
  }

  /** The option text a value is written as. */
  function Spelling(x: OptionValue): string {
    match x
    case Bool(b) => if b then "true" else "false"
    case Int(n) => NatToString(n)
    case Float(l) => l
    case Str(s) => s
  }

  /** The values an option text can produce: a float carries a float
      literal, a string is nothing the earlier tests would take. */
  predicate Producible(x: OptionValue) {
    match x
    case Bool(_) => true
    case Int(_) => true
    case Float(l) => IsFloatLiteral(l)
    case Str(s) => s != "true" && s != "false" && !IsIntLiteral(s) && !IsFloatLiteral(s)
  }

  /** Coercion loses nothing but the leading zeros of an integer. */
  lemma CoerceSpelling(v: string)
    ensures Producible(Coerce(v))
    ensures Spelling(Coerce(v)) == v <==> !(IsIntLiteral(v) && !IsCanonical(v))
  {
    var x := Coerce(v);
    if x.Int? {
      if IsCanonical(v) {
        NatToStringParse(v);
      } else {
        assert IsCanonical(NatToString(ParseDigits(v)));
      }
    }
  }

  /** Every producible value comes back from its spelling. */
  lemma SpellingCoerce(x: OptionValue)
    requires Producible(x)
    ensures Coerce(Spelling(x)) == x
  {
    if x.Int? {
      ParseNatToString(x.number);
    }
  }

  /** The options before `-O` is looked at. */
  function Defaults(model: string, tier: string, language: string): (m: OptionMap)
    ensures m.Keys == {"model", "tier", "punctuate", "utterances", if language == "auto" then "detect_language" else "language"}
    ensures m["model"] == Str(model) && m["tier"] == Str(tier)
    ensures m["punctuate"] == Bool(true) && m["utterances"] == Bool(true)
    ensures language == "auto" ==> m["detect_language"] == Bool(true)
    ensures language != "auto" ==> m["language"] == Str(language)
  {
    var m := map["model" := Str(model), "tier" := Str(tier), "punctuate" := Bool(true), "utterances" := Bool(true)];
    if language == "auto" then m["detect_language" := Bool(true)]
    else m["language" := Str(language)]
  }

  /** The pieces applied in order; the first piece the pattern rejects
      aborts. */
  function ApplySettings(m: OptionMap, pieces: seq<string>): (r: Result<OptionMap, string>)
    ensures r.Failure? ==> r.error == InvalidSpecification
    ensures r.Success? ==> m.Keys <= r.value.Keys
    ensures r.Success? ==> forall key :: key in r.value && key !in m ==> exists i :: 0 <= i < |pieces| && Assigns(ParsePiece(pieces[i]), key)
    decreases |pieces|
  {
    if |pieces| == 0 then Success(m)
    else
      match ParsePiece(pieces[0])
      case None => Failure(InvalidSpecification)
      case Some(s) => ApplySettings(m[s.key := Coerce(s.value)], pieces[1..])
  }

  /** The option map sent with the request. */
  function BuildOptions(model: string, tier: string, language: string, spec: string): (r: Result<OptionMap, string>)
    ensures spec == "" ==> r.Success?
    ensures r.Failure? ==> r.error == InvalidSpecification
    ensures r.Success? ==> Defaults(model, tier, language).Keys <= r.value.Keys
  {
    var m := Defaults(model, tier, language);
    if spec == "" then Success(m)
    else ApplySettings(m, SplitOn(spec, ','))
  }

  /** Each piece as the pattern reads it. */
  function Parsed(pieces: seq<string>): (r: seq<Option<Setting>>)
    ensures |r| == |pieces|
    ensures forall i :: 0 <= i < |pieces| ==> r[i] == ParsePiece(pieces[i])
  {
    seq(|pieces|, i requires 0 <= i < |pieces| => ParsePiece(pieces[i]))
  }

  lemma ParsedCons(pieces: seq<string>)
    requires |pieces| > 0
    ensures Parsed(pieces) == [ParsePiece(pieces[0])] + Parsed(pieces[1..])
  {
  }

  predicate Assigns(x: Option<Setting>, key: string) {
    x.Some? && x.value.key == key
  }

  /** The value text of the last setting of `key`. */
  function LastAssignment(parsed: seq<Option<Setting>>, key: string): Option<string>
    decreases |parsed|
  {
    if |parsed| == 0 then None
    else
      var n := |parsed| - 1;
      if Assigns(parsed[n], key) then Some(parsed[n].value.value)
      else LastAssignment(parsed[..n], key)
  }

  /** The last assignment is one of the settings, and no later one sets
      the same key; without one, no setting has the key. */
  lemma {:induction false} LastAssignmentMeaning(parsed: seq<Option<Setting>>, key: string)
    ensures LastAssignment(parsed, key).Some? ==>
              exists i :: && 0 <= i < |parsed|
                          && parsed[i] == Some(Setting(key, LastAssignment(parsed, key).value))
                          && forall j :: i < j < |parsed| ==> !Assigns(parsed[j], key)
    ensures LastAssignment(parsed, key).None? ==> forall i :: 0 <= i < |parsed| ==> !Assigns(parsed[i], key)
    decreases |parsed|
  {
    if |parsed| > 0 {
      var n := |parsed| - 1;
      var init := parsed[..n];
      if !Assigns(parsed[n], key) {
        LastAssignmentMeaning(init, key);
        assert forall i :: 0 <= i < n ==> init[i] == parsed[i];
      }
    }
  }

  /** Looking from the front: a later assignment takes precedence. */
  lemma {:induction false} LastAssignmentCons(x: Option<Setting>, rest: seq<Option<Setting>>, key: string)
    ensures LastAssignment([x] + rest, key)
         == if LastAssignment(rest, key).Some? then LastAssignment(rest, key)
            else if Assigns(x, key) then Some(x.value.value)
            else None
    decreases |rest|
  {
    if |rest| > 0 {
      var n := |rest| - 1;
      assert ([x] + rest)[..n + 1] == [x] + rest[..n];
      LastAssignmentCons(x, rest[..n], key);
    } else {
      assert [x] + rest == [x];
      assert ([x] + rest)[..0] == [];
    }
  }

  predicate AllAssignments(pieces: seq<string>) {
    forall i :: 0 <= i < |pieces| ==> IsAssignment(pieces[i])
  }

  /** Applying the pieces succeeds exactly when every piece is an
      assignment; otherwise it reports the program's error. */
  lemma {:induction false} ApplySettingsAccepts(m: OptionMap, pieces: seq<string>)
    ensures ApplySettings(m, pieces).Success? <==> AllAssignments(pieces)
    ensures ApplySettings(m, pieces).Failure? ==> ApplySettings(m, pieces).error == InvalidSpecification
    decreases |pieces|
  {
    if |pieces| > 0 {
      var rest := pieces[1..];
      ParsePieceAccepts(pieces[0]);
      match ParsePiece(pieces[0])
      case None =>
      case Some(s) =>
        ApplySettingsAccepts(m[s.key := Coerce(s.value)], rest);
        assert forall i :: 0 <= i < |rest| ==> rest[i] == pieces[i + 1];
    }
  }

  /** After a successful application a key holds the coercion of its last
      assignment, or its old value when it has none. */
  lemma {:induction false} ApplySettingsValue(m: OptionMap, pieces: seq<string>, key: string)
    requires ApplySettings(m, pieces).Success?
    ensures key in ApplySettings(m, pieces).value <==> key in m || LastAssignment(Parsed(pieces), key).Some?
    ensures key in ApplySettings(m, pieces).value ==>
              ApplySettings(m, pieces).value[key]
                == if LastAssignment(Parsed(pieces), key).Some? then Coerce(LastAssignment(Parsed(pieces), key).value) else m[key]
    decreases |pieces|
  {
    if |pieces| > 0 {
      var rest := pieces[1..];
      assert pieces == [pieces[0]] + rest;
      var s := ParsePiece(pieces[0]).value;
      ApplySettingsValue(m[s.key := Coerce(s.value)], rest, key);
      ParsedCons(pieces);
      LastAssignmentCons(ParsePiece(pieces[0]), Parsed(rest), key);
    }
  }

  /** `r` is `m` with each key that `parsed` sets bound to the coercion of
      its last assignment. */
  ghost predicate Overrides(m: OptionMap, parsed: seq<Option<Setting>>, r: OptionMap) {
    forall key :: && (key in r <==> key in m || LastAssignment(parsed, key).Some?)
                  && (key in r ==> r[key] == if LastAssignment(parsed, key).Some?
                                            then Coerce(LastAssignment(parsed, key).value)
                                            else m[key])
  }

  lemma ApplySettingsOverrides(m: OptionMap, pieces: seq<string>)
    requires ApplySettings(m, pieces).Success?
    ensures Overrides(m, Parsed(pieces), ApplySettings(m, pieces).value)
  {
    forall key {
      ApplySettingsValue(m, pieces, key);
    }
  }

  /** The option map of a run: the defaults when `-O` is empty; otherwise
      the defaults overridden by the last assignment of each key, or the
      error when any comma-separated piece is not `key=value`. */
  lemma BuildOptionsMeaning(model: string, tier: string, language: string, spec: string)
    ensures spec == "" ==> BuildOptions(model, tier, language, spec) == Success(Defaults(model, tier, language))
    ensures spec != "" ==>
              (BuildOptions(model, tier, language, spec).Success?
               <==> AllAssignments(SplitOn(spec, ',')))
    ensures BuildOptions(model, tier, language, spec).Failure?
        ==> BuildOptions(model, tier, language, spec).error == InvalidSpecification
    ensures spec != "" && BuildOptions(model, tier, language, spec).Success? ==>
              Overrides(Defaults(model, tier, language), Parsed(SplitOn(spec, ',')), BuildOptions(model, tier, language, spec).value)
  {
    if spec != "" {
      var d := Defaults(model, tier, language);
      var pieces := SplitOn(spec, ',');
      assert BuildOptions(model, tier, language, spec) == ApplySettings(d, pieces);
      ApplySettingsAccepts(d, pieces);
      if ApplySettings(d, pieces).Success? {
        ApplySettingsOverrides(d, pieces);
      }
    }
  }

  /** One malformed piece spoils the whole option string. */
  lemma MalformedPieceExample()
    ensures BuildOptions("general", "nova", "auto", "n=1,m") == Failure(InvalidSpecification)
  {
    var d := Defaults("general", "nova", "auto");
    assert SplitOn("n=1,m", ',') == ["n=1", "m"] by {
      assert "n=1,m" == "n=1" + [','] + "m";
      SplitOnCons("n=1", ',', "m");
      SplitOnNone("m", ',');
    }
    ParsePieceMatches("n=1", "n", "1");
    assert ApplySettings(d, ["n=1", "m"]) == ApplySettings(d["n" := Coerce("1")], ["m"]);
  }

  /** A trailing comma leaves an empty last piece, which the pattern
      rejects. */
  lemma TrailingCommaRejected(model: string, tier: string, language: string, spec: string)
    requires |spec| > 0 && spec[|spec| - 1] == ','
    ensures BuildOptions(model, tier, language, spec) == Failure(InvalidSpecification)
  {
    var pieces := SplitOn(spec, ',');
    SplitOnTrailing(spec[..|spec| - 1], ',');
    assert spec == spec[..|spec| - 1] + [','];
    BuildOptionsMeaning(model, tier, language, spec);
    assert !IsAssignment(pieces[|pieces| - 1]);
  }
}
