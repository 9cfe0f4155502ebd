/**
 * `exports.parse(data, fail)`: JSON.parse, and, when `fail` is false and the
 * text is not JSON, a single recovery attempt on the first brace-delimited
 * span of the text; text without such a span is wrapped as `{text: data}`.
 */
module TolerantParser {
  import opened JsonValue
  import opened Errors
  import opened Strings

  /** The built-in JSON.parse, given as a parameter: None stands for the SyntaxError it throws. */
  type JsonParser = string -> Option<Json>

  /** `data.split(match[0])` as the JSON array stored under `_extra`. */
  function ExtraValue(pieces: seq<string>): Json
  {
    Arr(seq(|pieces|, i requires 0 <= i < |pieces| => Str(pieces[i])))
  }

  /** `parsed._extra = extra`: adds or overwrites the property of an object; other values are left as they are. */
  function SetExtra(parsed: Json, extra: Json): (r: Json)
    ensures !parsed.Obj? ==> r == parsed
    ensures parsed.Obj? ==> r.Obj? && "_extra" in r.fields && r.fields["_extra"] == extra
    ensures parsed.Obj? ==> forall k :: k != "_extra" ==>
      (k in r.fields <==> k in parsed.fields) && (k in parsed.fields ==> r.fields[k] == parsed.fields[k])
  {
    if parsed.Obj? then Obj(parsed.fields["_extra" := extra]) else parsed
  }

  /** The record `{text: data}` that wraps text with no brace span. */
  function WrapText(data: string): Json
  {
    Obj(map["text" := Str(data)])
  }

  /** `exports.parse(data, fail)`; the recovery parses the matched span with `fail` set, so it recurses at most once. */
  function Parse(data: string, fail: bool, jsonParse: JsonParser): (r: Result<Json>)
    ensures jsonParse(data).Some? ==> r == Ok(jsonParse(data).value)
    ensures r.Err? ==> r.error.ParseError? && jsonParse(r.error.text).None? && jsonParse(data).None?
    ensures fail && jsonParse(data).None? ==> r == Err(ParseError(data))
    ensures !fail && RegexMatch(data).None? ==> r.Ok?
    decreases if fail then 0 else 1
  {
    match jsonParse(data)
    case Some(v) => Ok(v)
    case None =>
      if fail then Err(ParseError(data))
      else
        match RegexMatch(data)
        case None => Ok(WrapText(data))
        case Some(span) =>
          var matched := MatchedText(data, span);
          match Parse(matched, true, jsonParse)
          case Err(e) => Err(e)
          case Ok(parsed) => Ok(SetExtra(parsed, ExtraValue(Split(data, matched))))
  }

  /** Text that JSON.parse accepts is returned as parsed, without `_extra`, in either mode. */
  lemma CleanParse(data: string, fail: bool, jsonParse: JsonParser)
    requires jsonParse(data).Some?
    ensures Parse(data, fail, jsonParse) == Ok(jsonParse(data).value)
  {
  }

  /** In strict mode a rejected text is an error about that text, with no fallback. */
  lemma StrictFailure(data: string, jsonParse: JsonParser)
    requires jsonParse(data).None?
    ensures Parse(data, true, jsonParse) == Err(ParseError(data))
  {
  }

  /** Non-strict, rejected text with no brace span on one line is wrapped as `{text: data}`, never an error. */
  lemma WrapsTextWithoutSpan(data: string, jsonParse: JsonParser)
    requires jsonParse(data).None?
    requires forall i, j :: !IsBraceMatch(data, i, j)
    ensures Parse(data, false, jsonParse) == Ok(Obj(map["text" := Str(data)]))
  {
  }

  /** Non-strict, rejected text whose regex match does not parse either: the inner parse's error, with no second fallback. */
  lemma SpanFailure(data: string, i: nat, j: nat, jsonParse: JsonParser)
    requires jsonParse(data).None?
    requires IsRegexMatch(data, i, j)
    requires jsonParse(data[i..j + 1]).None?
    ensures Parse(data, false, jsonParse) == Err(ParseError(data[i..j + 1]))
  {
    RegexMatchUnique(data, i, j);
  }

  /**
   * Non-strict, rejected text whose regex match parses to an object: that
   * object, with `_extra` set (or overwritten) to the text split on the match
   * and every other property kept.
   */
  lemma SpanRecovered(data: string, i: nat, j: nat, jsonParse: JsonParser, fields: map<string, Json>)
    requires jsonParse(data).None?
    requires IsRegexMatch(data, i, j)
    requires jsonParse(data[i..j + 1]) == Some(Obj(fields))
    ensures Parse(data, false, jsonParse) == Ok(Obj(fields["_extra" := ExtraValue(Split(data, data[i..j + 1]))]))
  {
    RegexMatchUnique(data, i, j);
  }

  /** A non-strict parse fails only when the text is rejected, a brace span exists, and the span is rejected too. */
  lemma NonStrictErrors(data: string, jsonParse: JsonParser)
    ensures Parse(data, false, jsonParse).Err? <==>
      && jsonParse(data).None?
      && RegexMatch(data).Some?
      && jsonParse(MatchedText(data, RegexMatch(data).value)).None?
  {
  }

  /**
   * The residue holds the text before the match as its first piece, and the
   * pieces after it join with the match back into the text after the match;
   * the match occurs nowhere earlier in the text.
   */
  lemma ExtraSurroundsMatch(data: string, i: nat, j: nat)
    requires IsRegexMatch(data, i, j)
    ensures var pieces := Split(data, data[i..j + 1]);
      && |pieces| >= 2
      && pieces[0] == data[..i]
      && Join(pieces[1..], data[i..j + 1]) == data[j + 1..]
  {
    var m := data[i..j + 1];
    assert OccursAt(data, m, i);
    forall q | 0 <= q < i
      ensures !OccursAt(data, m, q)
    {
      if OccursAt(data, m, q) {
        forall k | q < k < q + |m| - 1
          ensures !IsLineTerminator(data[k])
        {
          assert data[k] == data[q..q + |m|][k - q] == m[k - q] == data[i + (k - q)];
        }
        assert data[q] == m[0] && data[q + |m| - 1] == m[|m| - 1];
        assert IsBraceMatch(data, q, q + |m| - 1);
        assert false;
      }
    }
    assert FirstOccurrence(data, m, 0) == Some(i);
    assert i + |m| == j + 1;
    var pieces := Split(data, m);
    assert pieces == [data[..i]] + Split(data[j + 1..], m);
    SplitCutsAtEveryOccurrence(data[j + 1..], m);
    assert pieces[1..] == Split(data[j + 1..], m);
  }

  /** Joining the residue with the matched text gives back the whole input. */
  lemma ExtraRejoins(data: string, i: nat, j: nat)
    requires IsRegexMatch(data, i, j)
    ensures Join(Split(data, data[i..j + 1]), data[i..j + 1]) == data
  {
    SplitCutsAtEveryOccurrence(data, data[i..j + 1]);
  }
}
