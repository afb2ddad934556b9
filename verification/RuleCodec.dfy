/** Matched rules as stored text: the consumer joins the code names with commas, the admin side splits
    them again. */
module RuleCodec {
  import opened Domain
  import opened RuleEngine

  function Name(code: RuleCode): string {
    match code
    case AmountThreshold => "AMOUNT_THRESHOLD"
    case NightTimeTransaction => "NIGHT_TIME_TRANSACTION"
    case SuspiciousLocation => "SUSPICIOUS_LOCATION"
    case RapidTransactionCount => "RAPID_TRANSACTION_COUNT"
    case WindowAmountSum => "WINDOW_AMOUNT_SUM"
    case HighAmount => "HIGH_AMOUNT"
    case Velocity => "VELOCITY"
    case NewDevice => "NEW_DEVICE"
    case LocationChange => "LOCATION_CHANGE"
  }

  const CODES: seq<RuleCode> := [
    AmountThreshold, NightTimeTransaction, SuspiciousLocation, RapidTransactionCount, WindowAmountSum,
    HighAmount, Velocity, NewDevice, LocationChange]

  function Names(codes: seq<RuleCode>): (r: seq<string>)
    ensures |r| == |codes|
  {
    if codes == [] then [] else Names(codes[..|codes| - 1]) + [Name(codes[|codes| - 1])]
  }

  lemma {:induction false} NamesAt(codes: seq<RuleCode>, i: nat)
    requires i < |codes|
    ensures Names(codes)[i] == Name(codes[i])
    decreases |codes|
  {
    if i < |codes| - 1 { NamesAt(codes[..|codes| - 1], i); }
  }

  function Serialize(codes: seq<RuleCode>): string { Join(Names(codes), ",") }

  /** The code of a name among those listed from `from` on. */
  function ValueOf(name: string, from: nat): Option<RuleCode>
    requires from <= |CODES|
    decreases |CODES| - from
  {
    if from == |CODES| then None
    else if Name(CODES[from]) == name then Some(CODES[from])
    else ValueOf(name, from + 1)
  }

  // ----- Splitting -----

  /** The pieces between commas. */
  function Split(s: string): (pieces: seq<string>)
    ensures pieces != []
  {
    if s == "" then [""]
    else
      var rest := Split(s[1..]);
      if s[0] == ',' then [""] + rest else [[s[0]] + rest[0]] + rest[1..]
  }

  /** The library's split also drops empty pieces at the end. */
  function DropTrailingEmpty(pieces: seq<string>): seq<string> {
    if pieces != [] && pieces[|pieces| - 1] == "" then DropTrailingEmpty(pieces[..|pieces| - 1]) else pieces
  }

  /** Each piece trimmed, the blank ones left out. */
  function NonBlank(pieces: seq<string>): seq<string> {
    if pieces == [] then [] else
      var last := Trim(pieces[|pieces| - 1]);
      NonBlank(pieces[..|pieces| - 1]) + if IsBlank(last) then [] else [last]
  }

  function Fields(value: string): seq<string> {
    if IsBlank(value) then [] else NonBlank(DropTrailingEmpty(Split(value)))
  }

  /** The values of all elements; None when one has none. */
  function All<A, B>(s: seq<A>, f: A -> Option<B>): Option<seq<B>> {
    if s == [] then Some([])
    else
      var before, last := All(s[..|s| - 1], f), f(s[|s| - 1]);
      if before.None? || last.None? then None else Some(before.value + [last.value])
  }

  lemma {:induction false} AllIs<A, B>(s: seq<A>, f: A -> Option<B>, t: seq<B>)
    requires |s| == |t| && forall i :: 0 <= i < |s| ==> f(s[i]) == Some(t[i])
    ensures All(s, f) == Some(t)
    decreases |s|
  {
    if s == [] {
    } else {
      var before, last := t[..|t| - 1], t[|t| - 1];
      AllIs(s[..|s| - 1], f, before);
      assert f(s[|s| - 1]) == Some(last);
      assert t == before + [last];
    }
  }

  /** The codes of the names; None for an unknown name, where the program throws. */
  function ValuesOf(names: seq<string>): Option<seq<RuleCode>> { All(names, (name: string) => ValueOf(name, 0)) }

  function ParseMatchedRules(value: Option<string>): Option<seq<RuleCode>> {
    if value.None? || IsBlank(value.value) then Some([]) else ValuesOf(Fields(value.value))
  }

  // ----- Trimming -----

  predicate Trimmed(s: string) { s == "" || (s[0] > ' ' && s[|s| - 1] > ' ') }

  lemma {:induction false} TrimLeftFacts(s: string)
    ensures TrimLeft(s) == "" || TrimLeft(s)[0] > ' '
    ensures forall c :: c in TrimLeft(s) ==> c in s
  {
    if s == "" || s[0] > ' ' {
    } else {
      TrimLeftFacts(s[1..]);
      assert s == [s[0]] + s[1..];
    }
  }

  lemma {:induction false} TrimRightFacts(s: string)
    ensures TrimRight(s) <= s && (TrimRight(s) == "" || TrimRight(s)[|TrimRight(s)| - 1] > ' ')
  {
    if s == "" || s[|s| - 1] > ' ' {
    } else {
      TrimRightFacts(s[..|s| - 1]);
    }
  }

  lemma TrimFacts(s: string)
    ensures Trimmed(Trim(s)) && (Trimmed(s) ==> Trim(s) == s)
    ensures ',' !in s ==> ',' !in Trim(s)
  {
    TrimLeftFacts(s);
    TrimRightFacts(TrimLeft(s));
    assert forall c :: c in Trim(s) ==> c in TrimLeft(s);
  }

  // ----- Splitting undoes joining -----

  /** A name that survives storage: no comma, not blank, nothing to trim. */
  predicate Clean(name: string) { ',' !in name && !IsBlank(name) && Trimmed(name) }

  lemma {:induction false} SplitPlain(s: string)
    requires ',' !in s
    ensures Split(s) == [s]
  {
    if s == "" {
    } else {
      assert s == [s[0]] + s[1..];
      SplitPlain(s[1..]);
    }
  }

  lemma {:induction false} SplitAtComma(s: string, rest: string)
    requires ',' !in s
    ensures Split(s + "," + rest) == [s] + Split(rest)
  {
    var whole := s + "," + rest;
    if s == "" {
      assert whole[0] == ',' && whole[1..] == rest;
    } else {
      assert s == [s[0]] + s[1..];
      SplitAtComma(s[1..], rest);
      assert whole[1..] == s[1..] + "," + rest;
    }
  }

  lemma {:induction false} SplitJoin(names: seq<string>)
    requires names != [] && forall i :: 0 <= i < |names| ==> ',' !in names[i]
    ensures Split(Join(names, ",")) == names
  {
    if |names| == 1 {
      SplitPlain(names[0]);
    } else {
      SplitJoin(names[1..]);
      SplitAtComma(names[0], Join(names[1..], ","));
    }
  }

  lemma {:induction false} KeepAll(names: seq<string>)
    requires forall i :: 0 <= i < |names| ==> Clean(names[i])
    ensures NonBlank(names) == names
  {
    if names == [] {
    } else {
      KeepAll(names[..|names| - 1]);
      TrimFacts(names[|names| - 1]);
      assert names == names[..|names| - 1] + [names[|names| - 1]];
    }
  }

  lemma JoinStartsWithFirst(names: seq<string>)
    requires names != []
    ensures names[0] <= Join(names, ",")
  {
  }

  lemma CleanNamesSurvive(names: seq<string>)
    requires forall i :: 0 <= i < |names| ==> Clean(names[i])
    ensures Fields(Join(names, ",")) == names
  {
    if names != [] {
      var text := Join(names, ",");
      SplitJoin(names);
      KeepAll(names);
      JoinStartsWithFirst(names);
      var i :| 0 <= i < |names[0]| && !IsWhitespace(names[0][i]);
      assert text[i] == names[0][i];
      assert names[|names| - 1] != "";
    }
  }

  lemma {:induction false} PiecesHaveNoComma(s: string)
    ensures forall i :: 0 <= i < |Split(s)| ==> ',' !in Split(s)[i]
  {
    if s == "" {
    } else {
      PiecesHaveNoComma(s[1..]);
    }
  }

  lemma {:induction false} DropTrailingIsPrefix(pieces: seq<string>)
    ensures DropTrailingEmpty(pieces) <= pieces
  {
    if pieces == [] || pieces[|pieces| - 1] != "" {
    } else {
      DropTrailingIsPrefix(pieces[..|pieces| - 1]);
    }
  }

  lemma {:induction false} NonBlankIsClean(pieces: seq<string>)
    requires forall i :: 0 <= i < |pieces| ==> ',' !in pieces[i]
    ensures forall i :: 0 <= i < |NonBlank(pieces)| ==> Clean(NonBlank(pieces)[i])
  {
    if pieces == [] {
    } else {
      NonBlankIsClean(pieces[..|pieces| - 1]);
      TrimFacts(pieces[|pieces| - 1]);
    }
  }

  lemma FieldsAreClean(value: string)
    ensures forall i :: 0 <= i < |Fields(value)| ==> Clean(Fields(value)[i])
  {
    if !IsBlank(value) {
      PiecesHaveNoComma(value);
      DropTrailingIsPrefix(Split(value));
      NonBlankIsClean(DropTrailingEmpty(Split(value)));
    }
  }

  /** A list of names, of any length, survives joining and splitting exactly when every name is clean. */
  lemma SurvivesIffClean(names: seq<string>)
    ensures Fields(Join(names, ",")) == names <==> forall i :: 0 <= i < |names| ==> Clean(names[i])
  {
    FieldsAreClean(Join(names, ","));
    if forall i :: 0 <= i < |names| ==> Clean(names[i]) { CleanNamesSurvive(names); }
  }

  // ----- The codes -----

  lemma NamesAreClean(code: RuleCode)
    ensures Clean(Name(code))
  {
    assert !IsWhitespace(Name(code)[0]);
  }

  /** No two names are even of one length. */
  lemma NamesDiffer(a: RuleCode, b: RuleCode)
    requires a != b
    ensures |Name(a)| != |Name(b)|
  {
  }

  lemma {:induction false} FoundFrom(code: RuleCode, from: nat, at: nat)
    requires from <= at < |CODES| && CODES[at] == code
    ensures ValueOf(Name(code), from) == Some(code)
    decreases at - from
  {
    if CODES[from] != code {
      NamesDiffer(CODES[from], code);
      FoundFrom(code, from + 1, at);
    }
  }

  lemma NamesAreKnown(code: RuleCode)
    ensures ValueOf(Name(code), 0) == Some(code)
  {
    assert code in CODES;
    var at :| 0 <= at < |CODES| && CODES[at] == code;
    FoundFrom(code, 0, at);
  }

  /** Reading back one more name. */
  lemma ValuesOfNames(codes: seq<RuleCode>, names: seq<string>)
    requires names == Names(codes)
    ensures ValuesOf(names) == Some(codes)
  {
    var f := (name: string) => ValueOf(name, 0);
    forall i | 0 <= i < |names| ensures f(names[i]) == Some(codes[i]) {
      NamesAt(codes, i);
      NamesAreKnown(codes[i]);
    }
    AllIs(names, f, codes);
  }

  /** Round trip: every list of rule codes, the empty one included, is read back as it was stored. */
  lemma ParseUndoesSerialize(codes: seq<RuleCode>)
    ensures ParseMatchedRules(Some(Serialize(codes))) == Some(codes)
  {
    var names := Names(codes);
    forall i | 0 <= i < |names| ensures Clean(names[i]) {
      NamesAt(codes, i);
      NamesAreClean(codes[i]);
    }
    CleanNamesSurvive(names);
    ValuesOfNames(codes, names);
    if IsBlank(Serialize(codes)) { assert Fields(Serialize(codes)) == []; }
  }
}
