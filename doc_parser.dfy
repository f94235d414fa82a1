/** The document parser (`parseTwinkleDoc`, `validateTwinkleDoc`): one report
    per file, read either as a whole JSON text or as the first JSON Lines line
    that parses and validates. `JSON.parse` is the parameter `parse`. */
module DocParser {
  import opened Wrappers
  import opened JsonValue
  import opened Text

  datatype ValidationError = NotAnObject | MissingRequiredFields

  datatype ParseError = NotJsonOrJsonLines

  /** `validateTwinkleDoc`: a non-null object whose `timestamp`, `config` and
      `dataset_results` are all truthy passes unchanged. */
  function Validate(v: Json): (r: Result<Json, ValidationError>)
    ensures r.Ok? ==> r.value == v && v.JObj?
    ensures r.Ok? <==> v.JObj? && Truthy(Get(v, "timestamp")) && Truthy(Get(v, "config"))
                       && Truthy(Get(v, "dataset_results"))
    ensures !IsObjectType(v) ==> r == Err(NotAnObject)
    ensures IsObjectType(v) && r.Err? ==> r.error == MissingRequiredFields
  {
    if !IsObjectType(v) then Err(NotAnObject)
    else if !Truthy(Get(v, "timestamp")) || !Truthy(Get(v, "config")) || !Truthy(Get(v, "dataset_results"))
    then Err(MissingRequiredFields)
    else Ok(v)
  }

  /** `try { return validateTwinkleDoc(JSON.parse(t)) } catch { ... }`:
      the document in `t`, when it parses and validates. */
  function Accept(parse: string -> Option<Json>, t: string): Option<Json> {
    match parse(t)
    case None => None
    case Some(v) => if Validate(v).Ok? then Some(v) else None
  }

  /** `line.trim().replace(/,$/, '')`: trimmed, then one trailing comma removed. */
  function Clean(line: string): string {
    DropComma(Trim(line))
  }

  /** `t.replace(/,$/, '')`: a comma that ends `t` is removed, and only that one. */
  function DropComma(t: string): (r: string)
    ensures EndsWith(t, ",") ==> r + "," == t
    ensures !EndsWith(t, ",") ==> r == t
  {
    if t != [] && t[|t| - 1] == ',' then
      var r := t[..|t| - 1];
      assert r + "," == t;
      r
    else
      assert !EndsWith(t, ",") by {
        if |t| >= 1 { assert t[|t| - 1..][0] == t[|t| - 1]; }
      }
      t
  }

  /** What one JSON Lines line contributes: nothing when it is blank after
      cleaning, otherwise the document it parses to, if that validates. */
  function LineCandidate(parse: string -> Option<Json>, line: string): Option<Json> {
    var t := Clean(line);
    if t == [] then None else Accept(parse, t)
  }

  /** The `for (const line of lines)` search with its early return: the
      index of the first line with a candidate, or `|lines|` when none has one. */
  function FirstLine(candidate: string -> Option<Json>, lines: seq<string>, from: nat := 0): (i: nat)
    requires from <= |lines|
    ensures from <= i <= |lines|
    ensures forall k :: from <= k < i ==> candidate(lines[k]).None?
    ensures i < |lines| ==> candidate(lines[i]).Some?
    decreases |lines| - from
  {
    if from == |lines| then from
    else if candidate(lines[from]).Some? then from
    else FirstLine(candidate, lines, from + 1)
  }

  /** `LineCandidate` with the parser fixed, as the search applies it. */
  function LineCandidates(parse: string -> Option<Json>): string -> Option<Json> {
    line => LineCandidate(parse, line)
  }

  /** `parseTwinkleDoc`: the whole trimmed text first; failing that (also when
      it parses but does not validate), the first line of it that yields a
      document; failing that, an error. */
  function ParseDoc(parse: string -> Option<Json>, text: string): (r: Result<Json, ParseError>)
    ensures r.Ok? ==> Validate(r.value) == Ok(r.value)
    ensures Accept(parse, Trim(text)).Some? ==> r == Ok(Accept(parse, Trim(text)).value)
    ensures Accept(parse, Trim(text)).None? ==>
              var lines := Split(Trim(text), '\n');
              var i := FirstLine(LineCandidates(parse), lines);
              r == if i < |lines| then Ok(LineCandidates(parse)(lines[i]).value) else Err(NotJsonOrJsonLines)
  {
    var t := Trim(text);
    match Accept(parse, t)
    case Some(v) => Ok(v)
    case None =>
      var lines := Split(t, '\n');
      var i := FirstLine(LineCandidates(parse), lines);
      if i < |lines| then Ok(LineCandidates(parse)(lines[i]).value) else Err(NotJsonOrJsonLines)
  }

  /** A cleaned line loses one trailing comma, not two. */
  lemma CleanStripsOneComma()
    ensures Clean(",,") == ","
  {
    assert !IsJsSpace(',');
    assert TrimStart(",,") == ",,";
    assert TrimEnd(",,") == ",,";
    assert Trim(",,") == ",,";
    assert ",,"[..1] == ",";
  }

  /** A line holding only a comma is blank once cleaned. */
  lemma CleanLoneComma()
    ensures Clean(" , ") == ""
  {
    assert IsJsSpace(' ') && !IsJsSpace(',');
    assert TrimStart(", ") == ", ";
    assert TrimStart(" , ") == ", " by { assert " , "[1..] == ", "; }
    assert TrimEnd(",") == ",";
    assert TrimEnd(", ") == "," by { assert ", "[..1] == ","; }
    assert Trim(" , ") == ",";
    assert ","[..0] == "";
  }
}
