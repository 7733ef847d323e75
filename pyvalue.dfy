/**
 * Dynamically typed Python values as the modelled code sees them, and the
 * few Python operations on them whose edge cases the code depends on:
 * truthiness, the `in` operator, subscription with a string key, membership
 * in a set of strings, and `str.format()` called with no arguments.
 */
module PyValue {
  import opened Wrappers

  /** The exceptions that the modelled code raises or lets propagate. */
  datatype Exc =
    | InvalidArgument          // confluent.exceptions.InvalidArgumentException
    | NotFound(message: string) // confluent.exceptions.NotFoundException
    | KeyError
    | TypeError
    | IndexError
    | AttributeError
    | NoQuorum                 // what the configuration manager raises without quorum
    | Failure(message: string)  // a plain Exception raised with a message

  /** A JSON-like Python value; `str` and `unicode` are both `Str`. */
  datatype Value =
    | PyNone
    | Bool(b: bool)
    | Int(i: int)
    | Str(s: string)
    | List(items: seq<Value>)
    | StrSet(elems: set<string>)
    | Dict(entries: map<string, Value>)

  /** Python truthiness. */
  predicate Truthy(v: Value) {
    match v
    case PyNone => false
    case Bool(b) => b
    case Int(i) => i != 0
    case Str(s) => s != ""
    case List(xs) => xs != []
    case StrSet(e) => e != {}
    case Dict(d) => d != map[]
  }

  predicate OccursAt(k: string, s: string, i: int) {
    0 <= i <= |s| - |k| && s[i..i + |k|] == k
  }

  predicate IsSubstring(k: string, s: string) {
    exists i | 0 <= i <= |s| - |k| :: OccursAt(k, s, i)
  }

  /** `key in v` for a string key: a key test on a dict, a substring test on a
      string, element tests on lists and sets, a TypeError on anything else. */
  function Contains(v: Value, key: string): (r: Result<bool, Exc>)
    ensures r.Err? <==> v.PyNone? || v.Bool? || v.Int?
    ensures r.Err? ==> r.error == TypeError
    ensures v.Dict? ==> r == Ok(key in v.entries)
  {
    match v
    case Dict(d) => Ok(key in d)
    case Str(s) => Ok(IsSubstring(key, s))
    case List(xs) => Ok(Str(key) in xs)
    case StrSet(e) => Ok(key in e)
    case _ => Err(TypeError)
  }

  /** `v[key]` for a string key: only a dict that holds the key answers. */
  function Index(v: Value, key: string): (r: Result<Value, Exc>)
    ensures r.Ok? <==> v.Dict? && key in v.entries
    ensures r.Ok? ==> r.value == v.entries[key]
    ensures r.Err? ==> (r.error == KeyError <==> v.Dict?)
    ensures r.Err? ==> r.error == KeyError || r.error == TypeError
  {
    match v
    case Dict(d) => if key in d then Ok(d[key]) else Err(KeyError)
    case _ => Err(TypeError)
  }

  /** `v in choices` for a Python set of strings: lists and dicts are
      unhashable and raise; a set is retried as a frozenset, which is never
      a member; only a string can be a member. */
  function InStrSet(v: Value, choices: set<string>): (r: Result<bool, Exc>)
    ensures r == Ok(true) <==> v.Str? && v.s in choices
    ensures r.Err? <==> v.List? || v.Dict?
    ensures r.Err? ==> r.error == TypeError
    ensures v.StrSet? ==> r == Ok(false)
  {
    match v
    case Str(s) => Ok(s in choices)
    case List(_) => Err(TypeError)
    case Dict(_) => Err(TypeError)
    case _ => Ok(false)
  }

  predicate NoBraces(s: string) {
    forall i | 0 <= i < |s| :: s[i] != '{' && s[i] != '}'
  }

  function Prepend(c: char, r: Option<string>): Option<string> {
    if r.Some? then Some([c] + r.value) else None
  }

  /**
   * `s.format()` with no arguments: `{{` and `}}` stand for single braces;
   * any other brace either opens a replacement field, which has no argument
   * to fill it, or is a single `}`, and both raise (so `"{x}"` does not
   * format). `None` stands for the raise.
   */
  function Format(s: string): (r: Option<string>)
    ensures r.Some? ==> |r.value| <= |s|
    decreases |s|
  {
    if s == [] then Some([])
    else if s[0] == '{' then
      if |s| >= 2 && s[1] == '{' then Prepend('{', Format(s[2..])) else None
    else if s[0] == '}' then
      if |s| >= 2 && s[1] == '}' then Prepend('}', Format(s[2..])) else None
    else Prepend(s[0], Format(s[1..]))
  }

  /** Doubles every brace: the text a user writes to get `t` literally. */
  function Escape(t: string): (r: string)
    ensures |r| >= |t|
  {
    if t == [] then []
    else if t[0] == '{' || t[0] == '}' then [t[0], t[0]] + Escape(t[1..])
    else [t[0]] + Escape(t[1..])
  }

  lemma {:induction false} FormatWithoutBraces(s: string)
    requires NoBraces(s)
    ensures Format(s) == Some(s)
  {
    if s != [] {
      assert NoBraces(s[1..]) by {
        forall i | 0 <= i < |s[1..]| ensures s[1..][i] != '{' && s[1..][i] != '}' {
          assert s[1..][i] == s[i + 1];
        }
      }
      FormatWithoutBraces(s[1..]);
      assert [s[0]] + s[1..] == s;
    }
  }

  lemma {:induction false} FormatEscapeRoundTrip(t: string)
    ensures Format(Escape(t)) == Some(t)
  {
    if t != [] {
      FormatEscapeRoundTrip(t[1..]);
      var e := Escape(t);
      if t[0] == '{' || t[0] == '}' {
        assert e[2..] == Escape(t[1..]);
      } else {
        assert e[1..] == Escape(t[1..]);
      }
      assert [t[0]] + t[1..] == t;
    }
  }

  /** The converse of the round trip: a string that formats is the escaped
      form of its result, so `format()` succeeds exactly on escaped text and
      every brace in it is doubled. */
  lemma {:induction false} FormatOnlyEscaped(s: string)
    requires Format(s).Some?
    ensures Escape(Format(s).value) == s
    decreases |s|
  {
    if s != [] {
      var t := Format(s).value;
      if s[0] == '{' || s[0] == '}' {
        FormatOnlyEscaped(s[2..]);
        assert t == [s[0]] + Format(s[2..]).value;
        assert t[1..] == Format(s[2..]).value;
        assert s == [s[0], s[0]] + s[2..];
      } else {
        FormatOnlyEscaped(s[1..]);
        assert t == [s[0]] + Format(s[1..]).value;
        assert t[1..] == Format(s[1..]).value;
        assert s == [s[0]] + s[1..];
      }
    }
  }

  /** `format()` succeeds exactly on the escaped form of some text. */
  lemma FormatSucceedsIffEscaped(s: string)
    ensures Format(s).Some? <==> exists t :: Escape(t) == s
  {
    if Format(s).Some? {
      FormatOnlyEscaped(s);
    }
    if exists t :: Escape(t) == s {
      var t :| Escape(t) == s;
      FormatEscapeRoundTrip(t);
    }
  }

  /**
   * What the attribute intake stores for one value: a string that formats is
   * replaced by the formatted text, a string that does not becomes
   * `{'expression': s}`, and anything else is left as it is.
   */
  function Classify(v: Value): Value {
    match v
    case Str(s) =>
      var f := Format(s);
      if f.Some? then Str(f.value) else Dict(map["expression" := Str(s)])
    case _ => v
  }

  /** The three cases of `Classify`: a string is kept as text exactly when
      all its braces are doubled, and becomes an expression otherwise. */
  lemma ClassifyByKind(v: Value)
    ensures !v.Str? ==> Classify(v) == v
    ensures v.Str? && Format(v.s).Some? ==> Classify(v) == Str(Format(v.s).value)
    ensures v.Str? && Format(v.s).None? ==> Classify(v) == Dict(map["expression" := v])
    ensures v.Str? ==> (Classify(v).Str? <==> exists t :: Escape(t) == v.s)
  {
    if v.Str? {
      FormatSucceedsIffEscaped(v.s);
    }
  }

  function ClassifyAll(d: map<string, Value>): (r: map<string, Value>)
    ensures r.Keys == d.Keys
  {
    map k | k in d :: Classify(d[k])
  }

  lemma ClassifyWithoutBraces(s: string)
    requires NoBraces(s)
    ensures Classify(Str(s)) == Str(s)
  {
    FormatWithoutBraces(s);
  }

  lemma ClassifyEscaped(t: string)
    ensures Classify(Str(Escape(t))) == Str(t)
  {
    FormatEscapeRoundTrip(t);
  }

  /** Classifying twice is not classifying once: an escaped field written as
      `{{x}}` is literal text the first time and an expression the second. */
  lemma ClassifyTwiceDiffers()
    ensures Classify(Str("{{x}}")) == Str("{x}")
    ensures Classify(Classify(Str("{{x}}"))) == Dict(map["expression" := Str("{x}")])
  {
    var lit: string := "{{x}}";
    var tail: string := "x}}";
    var close: string := "}}";
    assert lit[2..] == tail && tail[1..] == close && close[2..] == [];
    assert ['}'] + [] == "}";
    assert Format(close) == Some("}");
    assert ['x'] + "}" == "x}";
    assert Format(tail) == Some("x}");
    assert ['{'] + "x}" == "{x}";
    assert Format(lit) == Some("{x}");
    var once: string := "{x}";
    assert once[0] == '{' && once[1] != '{';
  }
}
