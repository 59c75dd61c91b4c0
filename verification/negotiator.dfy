/**
 * Accept-header parsing and media-type negotiation: a simplified reading
 * of the Accept grammar of section 5.3.2 of RFC 7231 that splits on `,`,
 * `;`, `/` and `=` (no quoted strings), and a scoring loop that picks the
 * offer best matching the accepted ranges.
 */
module Negotiator {
  import opened Wrappers
  import opened Text

  /** A field and the text left after it. */
  datatype Split = Split(field: string, rest: string)

  /** A media range of an Accept header; `raw` is the text it was parsed from. */
  datatype AcceptRange = AcceptRange(
    mediaType: string,
    subtype: string,
    weight: real,
    parameters: map<string, string>,
    raw: string)

  /** strconv.ParseFloat, left uninterpreted: None when the text is not a number. */
  type FloatParser = string -> Option<real>

  // ---------------------------------------------------------------- splitting

  /**
   * Splits `s` at the first `sep`: the trimmed text before it, and the
   * trimmed text from it on. Without a `sep` the whole of `s`, untrimmed,
   * and "".
   */
  function ExtractField(s: string, sep: char): (r: Split)
    ensures sep !in s ==> r == Split(s, "")
    ensures sep !in r.field
    ensures |r.rest| <= |s|
  {
    ScanFieldProperties(s, sep);
    ScanField(s, sep, 0)
  }

  /**
   * When the separator occurs, both parts are trimmed, and a separator that
   * is not white space begins the rest.
   */
  lemma ExtractFieldTrims(s: string, sep: char)
    requires sep in s
    ensures Trimmed(ExtractField(s, sep).field) && Trimmed(ExtractField(s, sep).rest)
    ensures !IsSpace(sep) ==> |ExtractField(s, sep).rest| > 0 && ExtractField(s, sep).rest[0] == sep
  {
    ScanFieldProperties(s, sep);
  }

  /** The facts ExtractField promises, for the scan from the start. */
  lemma ScanFieldProperties(s: string, sep: char)
    ensures var r := ScanField(s, sep, 0);
      && (sep !in s ==> r == Split(s, ""))
      && sep !in r.field
      && |r.rest| <= |s|
      && (sep in s ==> Trimmed(r.field) && Trimmed(r.rest))
      && (sep in s && !IsSpace(sep) ==> |r.rest| > 0 && r.rest[0] == sep)
  {
    var i := IndexOf(s, sep);
    if i == -1 {
      ScanFieldNone(s, sep, 0);
    } else {
      ScanFieldAt(s, sep, 0, i);
      TrimSpaceAvoids(s[..i], sep);
      assert s[i..] == [sep] + s[i + 1..];
      TrimSpaceCons(sep, s[i + 1..]);
    }
  }

  /** The scan of extractField's loop from index `i` on. */
  function ScanField(s: string, sep: char, i: nat): (r: Split)
    requires i <= |s|
    ensures (forall j :: i <= j < |s| ==> s[j] != sep) ==> r == Split(s, "")
    decreases |s| - i
  {
    if i == |s| then Split(s, "")
    else if s[i] == sep then Split(TrimSpace(s[..i]), TrimSpace(s[i..]))
    else ScanField(s, sep, i + 1)
  }

  /** A scan over text without the separator keeps the text whole. */
  lemma {:induction false} ScanFieldNone(s: string, sep: char, i: nat)
    requires i <= |s| && sep !in s
    ensures ScanField(s, sep, i) == Split(s, "")
    decreases |s| - i
  {
    if i < |s| {
      assert s[i] in s;
      ScanFieldNone(s, sep, i + 1);
    }
  }

  /** A scan from before the first separator splits at it. */
  lemma {:induction false} ScanFieldAt(s: string, sep: char, i: nat, j: nat)
    requires i <= j < |s| && s[j] == sep && sep !in s[..j]
    ensures ScanField(s, sep, i) == Split(TrimSpace(s[..j]), TrimSpace(s[j..]))
    decreases j - i
  {
    if i < j {
      assert s[..j][i] == s[i];
      ScanFieldAt(s, sep, i + 1, j);
    }
  }

  /** At the first separator `j`, the split is the trimmed text on either side of it. */
  lemma ExtractFieldAt(s: string, sep: char, j: nat)
    requires j < |s| && s[j] == sep && sep !in s[..j]
    ensures ExtractField(s, sep) == Split(TrimSpace(s[..j]), TrimSpace(s[j..]))
  {
    ScanFieldAt(s, sep, 0, j);
  }

  /** Neither part of a split holds a character the input does not. */
  lemma ExtractFieldAvoids(s: string, sep: char, c: char)
    requires c !in s
    ensures c !in ExtractField(s, sep).field && c !in ExtractField(s, sep).rest
  {
    var i := IndexOf(s, sep);
    if i != -1 {
      ExtractFieldAt(s, sep, i);
      SliceAvoids(s, 0, i, c);
      SliceAvoids(s, i, |s|, c);
      TrimSpaceAvoids(s[..i], c);
      TrimSpaceAvoids(s[i..], c);
    }
  }

  /** ExtractField, with the separator itself dropped from the rest. */
  function ExtractFieldAndSkipToken(s: string, sep: char): (r: Split)
    ensures sep !in s ==> r == Split(s, "")
    ensures sep !in r.field
    ensures s == "" ==> r == Split("", "")
    ensures |s| > 0 ==> |r.rest| < |s|
  {
    var f := ExtractField(s, sep);
    if |f.rest| > 0 then Split(f.field, f.rest[1..]) else f
  }

  /** Neither part holds a character the input does not. */
  lemma SkipTokenAvoids(s: string, sep: char, c: char)
    requires c !in s
    ensures c !in ExtractFieldAndSkipToken(s, sep).field && c !in ExtractFieldAndSkipToken(s, sep).rest
  {
    ExtractFieldAvoids(s, sep, c);
    var f := ExtractField(s, sep);
    if |f.rest| > 0 {
      SliceAvoids(f.rest, 1, |f.rest|, c);
    }
  }

  /**
   * With a separator that is not white space, the field is the trimmed text
   * before the first separator and the rest is the text after it with only
   * its trailing white space removed.
   */
  lemma SkipTokenAtFirst(s: string, sep: char, i: int)
    requires 0 <= i < |s| && s[i] == sep && sep !in s[..i] && !IsSpace(sep)
    ensures ExtractFieldAndSkipToken(s, sep) == Split(TrimSpace(s[..i]), TrimRightSpace(s[i + 1..]))
  {
    ExtractFieldAt(s, sep, i);
    assert s[i..] == [sep] + s[i + 1..];
    TrimSpaceCons(sep, s[i + 1..]);
  }

  /**
   * The fields a separator-splitting loop visits, after those in `acc`:
   * split off one field, and go on while something is left.
   */
  function SplitFrom(acc: seq<string>, s: string, sep: char): (fs: seq<string>)
    ensures |fs| > |acc|
    decreases |s|
  {
    var sp := ExtractFieldAndSkipToken(s, sep);
    if sp.rest == "" then acc + [sp.field] else SplitFrom(acc + [sp.field], sp.rest, sep)
  }

  /** All the fields of `s`; always at least one. */
  function Fields(s: string, sep: char): (fs: seq<string>)
    ensures |fs| >= 1
  {
    SplitFrom([], s, sep)
  }

  /** No field holds the separator. */
  lemma {:induction false} SplitFromAvoids(acc: seq<string>, s: string, sep: char)
    requires forall i :: 0 <= i < |acc| ==> sep !in acc[i]
    ensures forall i :: 0 <= i < |SplitFrom(acc, s, sep)| ==> sep !in SplitFrom(acc, s, sep)[i]
    decreases |s|
  {
    var sp := ExtractFieldAndSkipToken(s, sep);
    var acc' := acc + [sp.field];
    assert forall i :: 0 <= i < |acc'| ==> sep !in acc'[i];
    if sp.rest != "" {
      SplitFromAvoids(acc', sp.rest, sep);
    }
  }

  lemma FieldsAvoid(s: string, sep: char)
    ensures forall i :: 0 <= i < |Fields(s, sep)| ==> sep !in Fields(s, sep)[i]
  {
    SplitFromAvoids([], s, sep);
  }

  // ---------------------------------------------------------------- parameters

  /** A `key=value` parameter; a parameter without `=` has the value "". */
  function KeyValue(p: string): (r: Split)
    ensures '=' !in r.field
    ensures '=' !in p ==> r == Split(p, "")
  {
    ExtractFieldAndSkipToken(p, '=')
  }

  /** The key and value of every non-empty segment, in order; empty segments are skipped. */
  function ParamPairs(segments: seq<string>): (ps: seq<Split>)
    ensures |ps| <= |segments|
  {
    if segments == [] then []
    else
      var p := segments[|segments| - 1];
      ParamPairs(segments[..|segments| - 1]) + (if |p| > 0 then [KeyValue(p)] else [])
  }

  /** ParamPairs keeps exactly the non-empty segments. */
  lemma {:induction false} ParamPairsMembers(segments: seq<string>)
    ensures forall i :: 0 <= i < |segments| && |segments[i]| > 0 ==> KeyValue(segments[i]) in ParamPairs(segments)
    ensures forall pr :: pr in ParamPairs(segments) ==>
      exists i :: 0 <= i < |segments| && |segments[i]| > 0 && pr == KeyValue(segments[i])
  {
    if segments != [] {
      var n := |segments|;
      var init := segments[..n - 1];
      ParamPairsMembers(init);
      assert forall i :: 0 <= i < n - 1 ==> init[i] == segments[i];
    }
  }

  /** One more segment: its pair, if it is not empty, follows the others. */
  lemma ParamPairsSnoc(segments: seq<string>, p: string)
    ensures ParamPairs(segments + [p]) == ParamPairs(segments) + (if |p| > 0 then [KeyValue(p)] else [])
  {
    assert (segments + [p])[..|segments|] == segments;
  }

  /** The map built from key/value pairs: a later pair overrides an earlier one with the same key. */
  function ParamsOf(pairs: seq<Split>): (m: map<string, string>)
  {
    if pairs == [] then map[]
    else
      var last := pairs[|pairs| - 1];
      ParamsOf(pairs[..|pairs| - 1])[last.field := last.rest]
  }

  /** One more pair overrides its key. */
  lemma ParamsOfSnoc(pairs: seq<Split>, kv: Split)
    ensures ParamsOf(pairs + [kv]) == ParamsOf(pairs)[kv.field := kv.rest]
  {
    assert (pairs + [kv])[..|pairs|] == pairs;
  }

  /**
   * The map extractParams' loop builds from `acc` over the text `rest`: split
   * off a segment, add its pair unless it is empty, go on while text is left.
   */
  function ParamsFrom(acc: map<string, string>, rest: string): (m: map<string, string>)
    decreases |rest|
  {
    var sp := ExtractFieldAndSkipToken(rest, ';');
    var p := sp.field;
    var next := if |p| > 0 then acc[KeyValue(p).field := KeyValue(p).rest] else acc;
    if sp.rest == "" then next else ParamsFrom(next, sp.rest)
  }

  /** The parameters of the text after a media type. */
  function Params(raw: string): (m: map<string, string>)
  {
    ParamsFrom(map[], raw)
  }

  /** The loop's map is the fold of the pairs of all the segments. */
  lemma {:induction false} ParamsFromFold(visited: seq<string>, rest: string)
    ensures ParamsFrom(ParamsOf(ParamPairs(visited)), rest) == ParamsOf(ParamPairs(SplitFrom(visited, rest, ';')))
    decreases |rest|
  {
    var sp := ExtractFieldAndSkipToken(rest, ';');
    var p := sp.field;
    var next := visited + [p];
    ParamPairsSnoc(visited, p);
    if |p| > 0 {
      ParamsOfSnoc(ParamPairs(visited), KeyValue(p));
    } else {
      assert ParamPairs(visited) + [] == ParamPairs(visited);
    }
    if sp.rest != "" {
      ParamsFromFold(next, sp.rest);
    }
  }

  /** Params is the map of the pairs of the `;`-separated segments. */
  lemma ParamsAreFold(raw: string)
    ensures Params(raw) == ParamsOf(ParamPairs(Fields(raw, ';')))
  {
    ParamsFromFold([], raw);
  }

  /** A key is in the map exactly when some pair names it. */
  lemma {:induction false} ParamsOfKeys(pairs: seq<Split>, k: string)
    ensures k in ParamsOf(pairs) <==> exists i :: 0 <= i < |pairs| && pairs[i].field == k
  {
    if pairs != [] {
      var init := pairs[..|pairs| - 1];
      ParamsOfKeys(init, k);
      assert forall i :: 0 <= i < |init| ==> init[i] == pairs[i];
    }
  }

  /** The value of a key is that of the LAST pair naming it. */
  lemma {:induction false} ParamsOfLastWins(pairs: seq<Split>, i: int)
    requires 0 <= i < |pairs|
    requires forall j :: i < j < |pairs| ==> pairs[j].field != pairs[i].field
    ensures pairs[i].field in ParamsOf(pairs)
    ensures ParamsOf(pairs)[pairs[i].field] == pairs[i].rest
  {
    var n := |pairs|;
    if i < n - 1 {
      var init := pairs[..n - 1];
      assert init[i] == pairs[i];
      assert forall j :: i < j < |init| ==> init[j] == pairs[j];
      ParamsOfLastWins(init, i);
    }
  }

  /** extractParams: the loop that fills the parameter map segment by segment. */
  method ExtractParams(raw: string) returns (params: map<string, string>)
    ensures params == Params(raw)
  {
    params := map[];
    var rest := raw;
    while true
      invariant ParamsFrom(params, rest) == Params(raw)
      decreases |rest|
    {
      var sp := ExtractFieldAndSkipToken(rest, ';');
      var p := sp.field;
      rest := sp.rest;
      if |p| > 0 {
        var kv := ExtractFieldAndSkipToken(p, '=');
        params := params[kv.field := kv.rest];
      }
      if |rest| == 0 {
        break;
      }
    }
  }

  /** extractWeight: the `q` parameter when it parses as a number, else 1. */
  function ExtractWeight(params: map<string, string>, parse: FloatParser): (w: real)
    ensures "q" in params && parse(params["q"]).Some? ==> w == parse(params["q"]).value
    ensures !("q" in params && parse(params["q"]).Some?) ==> w == 1.0
  {
    if "q" in params then
      match parse(params["q"])
      case Some(x) => x
      case None => 1.0
    else 1.0
  }

  // ---------------------------------------------------------------- ranges

  /** ParseAcceptRange: `type/subtype;params`, keeping the input verbatim as raw. */
  function ParseAcceptRange(accept: string, parse: FloatParser): (r: AcceptRange)
    ensures r.raw == accept
  {
    var ts := ExtractFieldAndSkipToken(accept, ';');
    var tp := ExtractFieldAndSkipToken(ts.field, '/');
    var params := Params(ts.rest);
    AcceptRange(tp.field, tp.rest, ExtractWeight(params, parse), params, accept)
  }

  /** An empty parameter text has no parameters. */
  lemma ParamsEmpty()
    ensures Params("") == map[]
  {
  }

  /**
   * The type holds neither `/` nor `;`, the subtype no `;`, and the weight is
   * the one the parameters give; without `;` there are no parameters and the
   * weight is 1, and without `/` either the whole text is the type.
   */
  lemma ParseAcceptRangeShape(accept: string, parse: FloatParser)
    ensures var r := ParseAcceptRange(accept, parse);
      && '/' !in r.mediaType && ';' !in r.mediaType && ';' !in r.subtype
      && r.weight == ExtractWeight(r.parameters, parse)
      && (';' !in accept ==> r.parameters == map[] && r.weight == 1.0)
      && ('/' !in accept && ';' !in accept ==> r.mediaType == accept && r.subtype == "")
  {
    var ts := ExtractFieldAndSkipToken(accept, ';');
    SkipTokenAvoids(ts.field, '/', ';');
    if ';' !in accept {
      ParamsEmpty();
    }
  }

  /** Splitting `a<sep>b`, neither part holding the separator or white space, gives back `a` and `b`. */
  lemma SkipTokenClean(a: string, sep: char, b: string)
    requires sep !in a && !IsSpace(sep)
    requires NoSpace(a) && NoSpace(b)
    ensures ExtractFieldAndSkipToken(a + [sep] + b, sep) == Split(a, b)
  {
    var s := a + [sep] + b;
    assert s[..|a|] == a && s[|a| + 1..] == b;
    SkipTokenAtFirst(s, sep, |a|);
    TrimSpaceNoSpace(a);
    TrimRightNoSpace(b);
  }

  /** A range `type/subtype` without parameters or white space parses to its two parts, weight 1. */
  lemma ParseTypeSubtype(t: string, st: string, parse: FloatParser)
    requires '/' !in t && ';' !in t && ';' !in st
    requires NoSpace(t) && NoSpace(st)
    ensures ParseAcceptRange(t + "/" + st, parse) == AcceptRange(t, st, 1.0, map[], t + "/" + st)
  {
    SkipTokenClean(t, '/', st);
    ParseAcceptRangeShape(t + "/" + st, parse);
  }

  /** A parameter text `key=value` without white space holds that one parameter. */
  lemma ParamsSingle(k: string, v: string)
    requires ';' !in k && ';' !in v && '=' !in k
    requires NoSpace(k) && NoSpace(v)
    ensures Params(k + "=" + v) == map[k := v]
  {
    SkipTokenClean(k, '=', v);
  }

  /** A range `type/subtype;key=value` without white space: its parts, that parameter, and the weight it implies. */
  lemma ParseTypeSubtypeParam(t: string, st: string, k: string, v: string, parse: FloatParser)
    requires '/' !in t && ';' !in t && ';' !in st && ';' !in k && ';' !in v && '=' !in k
    requires NoSpace(t) && NoSpace(st) && NoSpace(k) && NoSpace(v)
    ensures var raw := t + "/" + st + ";" + k + "=" + v;
      ParseAcceptRange(raw, parse) == AcceptRange(t, st, ExtractWeight(map[k := v], parse), map[k := v], raw)
  {
    var ty, kv := t + "/" + st, k + "=" + v;
    assert t + "/" + st + ";" + k + "=" + v == ty + [';'] + kv;
    NoSpaceJoin(t, '/', st);
    NoSpaceJoin(k, '=', v);
    SkipTokenClean(ty, ';', kv);
    SkipTokenClean(t, '/', st);
    ParamsSingle(k, v);
  }

  /** An Accept header without `,` is a single range. */
  lemma AcceptRangesSingle(accepts: string, parse: FloatParser)
    requires ',' !in accepts
    ensures AcceptRanges(accepts, parse) == [ParseAcceptRange(accepts, parse)]
  {
  }

  /** An Accept header `a,b` without white space is the two ranges, in order. */
  lemma AcceptRangesPair(a: string, b: string, parse: FloatParser)
    requires ',' !in a && ',' !in b && b != ""
    requires NoSpace(a) && NoSpace(b)
    ensures AcceptRanges(a + "," + b, parse) == [ParseAcceptRange(a, parse), ParseAcceptRange(b, parse)]
  {
    var s := a + "," + b;
    SkipTokenClean(a, ',', b);
    assert RangesFrom([], s, parse) == RangesFrom([ParseAcceptRange(a, parse)], b, parse);
  }

  /** Every text parsed as a media range, in order. */
  function ParseAll(texts: seq<string>, parse: FloatParser): (rs: seq<AcceptRange>)
    ensures |rs| == |texts|
    ensures forall i :: 0 <= i < |texts| ==> rs[i].raw == texts[i]
  {
    if texts == [] then []
    else ParseAll(texts[..|texts| - 1], parse) + [ParseAcceptRange(texts[|texts| - 1], parse)]
  }

  /** Parsing one more text appends its range. */
  lemma ParseAllSnoc(texts: seq<string>, t: string, parse: FloatParser)
    ensures ParseAll(texts + [t], parse) == ParseAll(texts, parse) + [ParseAcceptRange(t, parse)]
  {
    assert (texts + [t])[..|texts|] == texts;
  }

  /** Three texts parsed. */
  lemma ParseAllTriple(t1: string, t2: string, t3: string, parse: FloatParser)
    ensures ParseAll([t1, t2, t3], parse)
      == [ParseAcceptRange(t1, parse), ParseAcceptRange(t2, parse), ParseAcceptRange(t3, parse)]
  {
    ParseAllSnoc([], t1, parse);
    ParseAllSnoc([t1], t2, parse);
    ParseAllSnoc([t1, t2], t3, parse);
    assert [] + [t1] == [t1] && [t1] + [t2] == [t1, t2] && [t1, t2] + [t3] == [t1, t2, t3];
  }

  /**
   * The ranges ParseAcceptRanges' loop collects after `acc` from the text
   * `rest`: split off a field, parse it, go on while text is left.
   */
  function RangesFrom(acc: seq<AcceptRange>, rest: string, parse: FloatParser): (rs: seq<AcceptRange>)
    decreases |rest|
  {
    var sp := ExtractFieldAndSkipToken(rest, ',');
    var next := acc + [ParseAcceptRange(sp.field, parse)];
    if sp.rest == "" then next else RangesFrom(next, sp.rest, parse)
  }

  /** The media ranges of an Accept header. */
  function AcceptRanges(accepts: string, parse: FloatParser): (rs: seq<AcceptRange>)
  {
    RangesFrom([], accepts, parse)
  }

  /** The loop's ranges are the parsed fields. */
  lemma {:induction false} RangesFromFold(visited: seq<string>, rest: string, parse: FloatParser)
    ensures RangesFrom(ParseAll(visited, parse), rest, parse) == ParseAll(SplitFrom(visited, rest, ','), parse)
    decreases |rest|
  {
    var sp := ExtractFieldAndSkipToken(rest, ',');
    ParseAllSnoc(visited, sp.field, parse);
    if sp.rest != "" {
      RangesFromFold(visited + [sp.field], sp.rest, parse);
    }
  }

  /**
   * An Accept header has one range per comma-separated field: at least one,
   * even for "", and none whose text holds a comma.
   */
  lemma AcceptRangesAreParsedFields(accepts: string, parse: FloatParser)
    ensures AcceptRanges(accepts, parse) == ParseAll(Fields(accepts, ','), parse)
    ensures |AcceptRanges(accepts, parse)| >= 1
    ensures forall i :: 0 <= i < |AcceptRanges(accepts, parse)| ==> ',' !in AcceptRanges(accepts, parse)[i].raw
  {
    RangesFromFold([], accepts, parse);
    FieldsAvoid(accepts, ',');
  }

  /** ParseAcceptRanges: the loop over the comma-separated fields of an Accept header. */
  method ParseAcceptRanges(accepts: string, parse: FloatParser) returns (result: seq<AcceptRange>)
    ensures result == AcceptRanges(accepts, parse)
    ensures |result| >= 1
    ensures forall i :: 0 <= i < |result| ==> ',' !in result[i].raw
  {
    result := [];
    var remaining := accepts;
    while true
      invariant RangesFrom(result, remaining, parse) == AcceptRanges(accepts, parse)
      decreases |remaining|
    {
      var sp := ExtractFieldAndSkipToken(remaining, ',');
      remaining := sp.rest;
      result := result + [ParseAcceptRange(sp.field, parse)];
      if |remaining| == 0 {
        break;
      }
    }
    AcceptRangesAreParsedFields(accepts, parse);
  }

  // ---------------------------------------------------------------- negotiation

  /** Whether `k` is a key of both maps with the same value. */
  predicate SharedKey(p1: map<string, string>, p2: map<string, string>, k: string) {
    k in p1 && k in p2 && p1[k] == p2[k]
  }

  /** The keys among `ks` that the two maps share with equal values. */
  function SharedAmong(ks: set<string>, p1: map<string, string>, p2: map<string, string>): set<string>
  {
    set k | k in ks && SharedKey(p1, p2, k)
  }

  /** The keys the two maps share with equal values. */
  function SharedKeys(p1: map<string, string>, p2: map<string, string>): set<string>
  {
    SharedAmong(p1.Keys, p1, p2)
  }

  /** Adding one key to those examined adds it to the shared ones exactly when it is shared. */
  lemma SharedAmongAdd(ks: set<string>, k: string, p1: map<string, string>, p2: map<string, string>)
    requires k !in ks
    ensures |SharedAmong(ks + {k}, p1, p2)| == |SharedAmong(ks, p1, p2)| + (if SharedKey(p1, p2, k) then 1 else 0)
  {
    if SharedKey(p1, p2, k) {
      assert SharedAmong(ks + {k}, p1, p2) == SharedAmong(ks, p1, p2) + {k};
    } else {
      assert SharedAmong(ks + {k}, p1, p2) == SharedAmong(ks, p1, p2);
    }
  }

  /** A subset is no larger than its superset. */
  lemma {:induction false} SubsetCardinality<T>(a: set<T>, b: set<T>)
    requires a <= b
    ensures |a| <= |b|
    decreases |b|
  {
    if a != {} {
      var x :| x in a;
      SubsetCardinality(a - {x}, b - {x});
    }
  }

  /** No more shared keys than either map has keys. */
  lemma SharedKeysBound(p1: map<string, string>, p2: map<string, string>)
    ensures |SharedKeys(p1, p2)| <= |p1| && |SharedKeys(p1, p2)| <= |p2|
  {
    SubsetCardinality(SharedKeys(p1, p2), p1.Keys);
    SubsetCardinality(SharedKeys(p1, p2), p2.Keys);
  }

  /** compareParams: the number of parameters of `p1` that `p2` has with the same value. */
  method CompareParams(p1: map<string, string>, p2: map<string, string>) returns (count: nat)
    ensures count == |SharedKeys(p1, p2)|
    ensures count <= |p1| && count <= |p2|
  {
    count := 0;
    var todo := p1.Keys;
    ghost var done: set<string> := {};
    while todo != {}
      invariant todo !! done && todo + done == p1.Keys
      invariant count == |SharedAmong(done, p1, p2)|
      decreases |todo|
    {
      var k :| k in todo;
      SharedAmongAdd(done, k, p1, p2);
      if k in p2 && p1[k] == p2[k] {
        count := count + 1;
      }
      todo := todo - {k};
      done := done + {k};
    }
    assert done == p1.Keys;
    SharedKeysBound(p1, p2);
  }

  /** The best offer so far: its raw text, its score and its shared-parameter count. */
  datatype Best = Best(raw: string, weight: real, params: nat)

  function Initial(defaultOffer: AcceptRange): Best
  {
    Best(defaultOffer.raw, 0.0, 0)
  }

  /** The score bonus of a range: 0 for any type, 1 for a whole type, 2 for an exact type and subtype. */
  function Booster(accept: AcceptRange): (b: real)
    ensures b == 0.0 <==> accept.mediaType == "*"
    ensures b == 1.0 <==> accept.mediaType != "*" && accept.subtype == "*"
    ensures b == 2.0 <==> accept.mediaType != "*" && accept.subtype != "*"
  {
    if accept.mediaType != "*" then
      if accept.subtype != "*" then 2.0 else 1.0
    else 0.0
  }

  /** An accepted range covers an offer: any type, every subtype of its type, or its exact type and subtype. */
  function Matches(accept: AcceptRange, offer: AcceptRange): (m: bool)
    ensures accept.mediaType == "*" && accept.subtype == "*" ==> m
    ensures m && accept.mediaType != "*" ==> offer.mediaType == accept.mediaType
    ensures m && accept.subtype != "*" ==> offer.mediaType == accept.mediaType && offer.subtype == accept.subtype
  {
    || (accept.mediaType == "*" && accept.subtype == "*")
    || (accept.subtype == "*" && offer.mediaType == accept.mediaType)
    || (accept.mediaType == offer.mediaType && accept.subtype == offer.subtype)
  }

  /** One pass of the inner loop body: compare an offer against an accepted range. */
  function Step(b: Best, offer: AcceptRange, accept: AcceptRange): (r: Best)
    ensures r == b || (Matches(accept, offer) && r.raw == offer.raw)
    ensures !Matches(accept, offer) ==> r == b
    ensures r.weight >= b.weight && r.params >= b.params
    ensures r != b ==> r.weight == accept.weight + Booster(accept) && b.weight <= r.weight
    ensures r.params != b.params ==> r.params == |SharedKeys(accept.parameters, offer.parameters)|
    ensures accept.subtype != "*" && |SharedKeys(accept.parameters, offer.parameters)| < b.params ==> r == b
    ensures accept.subtype == "*" ==> r.params == b.params
    ensures Matches(accept, offer) && accept.subtype != "*" && b.weight <= accept.weight + Booster(accept)
      && |SharedKeys(accept.parameters, offer.parameters)| >= b.params
      ==> r.params == |SharedKeys(accept.parameters, offer.parameters)|
    ensures Matches(accept, offer) && b.weight <= accept.weight + Booster(accept)
      && (accept.subtype == "*" || |SharedKeys(accept.parameters, offer.parameters)| >= b.params)
      ==> r.raw == offer.raw && r.weight == accept.weight + Booster(accept)
  {
    var score := accept.weight + Booster(accept);
    if b.weight > score then b
    else if accept.mediaType == "*" && accept.subtype == "*" then Best(offer.raw, score, b.params)
    else if accept.subtype == "*" && offer.mediaType == accept.mediaType then Best(offer.raw, score, b.params)
    else if accept.mediaType == offer.mediaType && accept.subtype == offer.subtype then
      var n := |SharedKeys(accept.parameters, offer.parameters)|;
      if n >= b.params then Best(offer.raw, score, n) else b
    else b
  }

  /** The inner loop: one offer against the accepted ranges, in order. */
  function ScanAccepts(b: Best, offer: AcceptRange, accepts: seq<AcceptRange>): (r: Best)
    ensures r.raw == b.raw || r.raw == offer.raw
    ensures r.weight >= b.weight && r.params >= b.params
  {
    if accepts == [] then b
    else Step(ScanAccepts(b, offer, accepts[..|accepts| - 1]), offer, accepts[|accepts| - 1])
  }

  /** When no accepted range covers the offer, the inner loop changes nothing. */
  lemma {:induction false} ScanAcceptsNoMatch(b: Best, offer: AcceptRange, accepts: seq<AcceptRange>)
    requires forall a :: a in accepts ==> !Matches(a, offer)
    ensures ScanAccepts(b, offer, accepts) == b
  {
    if accepts != [] {
      var init := accepts[..|accepts| - 1];
      assert forall a :: a in init ==> a in accepts;
      ScanAcceptsNoMatch(b, offer, init);
    }
  }

  /** The outer loop: every offer in order, each against every accepted range. */
  function ScanOffers(b: Best, offers: seq<AcceptRange>, accepts: seq<AcceptRange>): (r: Best)
    ensures r.weight >= b.weight && r.params >= b.params
  {
    if offers == [] then b
    else ScanAccepts(ScanOffers(b, offers[..|offers| - 1], accepts), offers[|offers| - 1], accepts)
  }

  /** The inner loop over two accepted ranges. */
  lemma ScanAcceptsPair(b: Best, offer: AcceptRange, a1: AcceptRange, a2: AcceptRange)
    ensures ScanAccepts(b, offer, [a1, a2]) == Step(Step(b, offer, a1), offer, a2)
  {
    assert [a1, a2][..1] == [a1];
    assert ScanAccepts(b, offer, [a1, a2]) == Step(ScanAccepts(b, offer, [a1]), offer, a2);
    assert [a1][..0] == [];
    assert ScanAccepts(b, offer, [a1]) == Step(ScanAccepts(b, offer, []), offer, a1);
  }

  /** The outer loop over three offers. */
  lemma ScanOffersTriple(b: Best, o1: AcceptRange, o2: AcceptRange, o3: AcceptRange, accepts: seq<AcceptRange>)
    ensures ScanOffers(b, [o1, o2, o3], accepts)
      == ScanAccepts(ScanAccepts(ScanAccepts(b, o1, accepts), o2, accepts), o3, accepts)
  {
    assert [o1, o2, o3][..2] == [o1, o2];
    assert ScanOffers(b, [o1, o2, o3], accepts) == ScanAccepts(ScanOffers(b, [o1, o2], accepts), o3, accepts);
    assert [o1, o2][..1] == [o1];
    assert ScanOffers(b, [o1, o2], accepts) == ScanAccepts(ScanOffers(b, [o1], accepts), o2, accepts);
    assert [o1][..0] == [];
    assert ScanOffers(b, [o1], accepts) == ScanAccepts(ScanOffers(b, [], accepts), o1, accepts);
  }

  /** The outer loop ends with the starting text or the text of one of the offers. */
  lemma {:induction false} ScanOffersPicksOffer(b: Best, offers: seq<AcceptRange>, accepts: seq<AcceptRange>)
    ensures var r := ScanOffers(b, offers, accepts);
      r.raw == b.raw || exists i :: 0 <= i < |offers| && r.raw == offers[i].raw
  {
    if offers != [] {
      var init := offers[..|offers| - 1];
      ScanOffersPicksOffer(b, init, accepts);
      var prev := ScanOffers(b, init, accepts);
      if prev.raw != b.raw && ScanOffers(b, offers, accepts).raw == prev.raw {
        var i :| 0 <= i < |init| && prev.raw == init[i].raw;
        assert offers[i] == init[i];
      }
    }
  }

  /** When no accepted range covers any offer, the outer loop changes nothing. */
  lemma {:induction false} ScanOffersNoMatch(b: Best, offers: seq<AcceptRange>, accepts: seq<AcceptRange>)
    requires forall o, a :: o in offers && a in accepts ==> !Matches(a, o)
    ensures ScanOffers(b, offers, accepts) == b
  {
    if offers != [] {
      var init := offers[..|offers| - 1];
      assert forall o :: o in init ==> o in offers;
      ScanOffersNoMatch(b, init, accepts);
      ScanAcceptsNoMatch(b, offers[|offers| - 1], accepts);
    }
  }

  /** The raw text negotiateContentType returns. */
  function NegotiatedRaw(accepts: seq<AcceptRange>, offers: seq<AcceptRange>, defaultOffer: AcceptRange): string
  {
    ScanOffers(Initial(defaultOffer), offers, accepts).raw
  }

  predicate NonNegativeWeights(accepts: seq<AcceptRange>)
  {
    forall a :: a in accepts ==> a.weight >= 0.0
  }

  /**
   * Starting from a score of 0 and no shared parameters, an offer that some
   * accepted range (of non-negative weight) covers ends up chosen.
   */
  lemma {:induction false} ScanAcceptsTakesMatch(b: Best, offer: AcceptRange, accepts: seq<AcceptRange>)
    requires b.weight == 0.0 && b.params == 0
    requires NonNegativeWeights(accepts)
    requires exists a :: a in accepts && Matches(a, offer)
    ensures ScanAccepts(b, offer, accepts).raw == offer.raw
  {
    var init := accepts[..|accepts| - 1];
    var last := accepts[|accepts| - 1];
    assert forall a :: a in init ==> a in accepts;
    if exists a :: a in init && Matches(a, offer) {
      ScanAcceptsTakesMatch(b, offer, init);
    } else {
      var a :| a in accepts && Matches(a, offer);
      assert accepts == init + [last];
      assert a == last;
      ScanAcceptsNoMatch(b, offer, init);
    }
  }

  /**
   * When some accepted range of non-negative weight covers some offer, the
   * negotiated text is one of the offers'.
   */
  lemma {:induction false} NegotiatedIsMatchingOffer(accepts: seq<AcceptRange>, offers: seq<AcceptRange>, defaultOffer: AcceptRange)
    requires NonNegativeWeights(accepts)
    requires exists o, a :: o in offers && a in accepts && Matches(a, o)
    ensures exists i :: 0 <= i < |offers| && NegotiatedRaw(accepts, offers, defaultOffer) == offers[i].raw
  {
    var n := |offers|;
    var init := offers[..n - 1];
    var last := offers[n - 1];
    var prev := ScanOffers(Initial(defaultOffer), init, accepts);
    var r := ScanAccepts(prev, last, accepts);
    assert ScanOffers(Initial(defaultOffer), offers, accepts) == r;
    assert forall o :: o in init ==> o in offers;
    if exists o, a :: o in init && a in accepts && Matches(a, o) {
      NegotiatedIsMatchingOffer(accepts, init, defaultOffer);
      assert NegotiatedRaw(accepts, init, defaultOffer) == prev.raw;
      var i :| 0 <= i < |init| && prev.raw == init[i].raw;
      assert offers[i] == init[i];
      if r.raw != prev.raw {
        assert r.raw == offers[n - 1].raw;
      }
    } else {
      ScanOffersNoMatch(Initial(defaultOffer), init, accepts);
      var o, a :| o in offers && a in accepts && Matches(a, o);
      assert offers == init + [last];
      assert o == last;
      ScanAcceptsTakesMatch(prev, last, accepts);
    }
  }

  /** The outer loop over two offers. */
  lemma ScanOffersPair(b: Best, o1: AcceptRange, o2: AcceptRange, accepts: seq<AcceptRange>)
    ensures ScanOffers(b, [o1, o2], accepts) == ScanAccepts(ScanAccepts(b, o1, accepts), o2, accepts)
  {
    assert [o1, o2][..1] == [o1];
    assert ScanOffers(b, [o1, o2], accepts) == ScanAccepts(ScanOffers(b, [o1], accepts), o2, accepts);
    assert [o1][..0] == [];
    assert ScanOffers(b, [o1], accepts) == ScanAccepts(ScanOffers(b, [], accepts), o1, accepts);
  }

  /** The inner loop over one accepted range. */
  lemma ScanAcceptsSingle(b: Best, offer: AcceptRange, a: AcceptRange)
    ensures ScanAccepts(b, offer, [a]) == Step(b, offer, a)
  {
    assert [a][..0] == [];
  }

  /**
   * Two offers of the same type and subtype against one range naming that
   * type and subtype: the offer sharing more parameters with the range wins,
   * and on equal counts the later offer does.
   */
  lemma SharedParamsBreakTie(e: AcceptRange, oa: AcceptRange, ob: AcceptRange, defaultOffer: AcceptRange)
    requires e.mediaType != "*" && e.subtype != "*" && e.weight >= 0.0
    requires oa.mediaType == ob.mediaType == e.mediaType && oa.subtype == ob.subtype == e.subtype
    ensures var na, nb := |SharedKeys(e.parameters, oa.parameters)|, |SharedKeys(e.parameters, ob.parameters)|;
      NegotiatedRaw([e], [oa, ob], defaultOffer) == if nb >= na then ob.raw else oa.raw
  {
    var b0 := Initial(defaultOffer);
    ScanOffersPair(b0, oa, ob, [e]);
    ScanAcceptsSingle(b0, oa, e);
    ScanAcceptsSingle(Step(b0, oa, e), ob, e);
  }

  /**
   * At equal weight, a range naming an offer's exact type and subtype beats
   * the range naming only its type: whichever order the ranges and the two
   * offers come in, the offer the exact range names is chosen over another
   * subtype of the same type.
   */
  lemma ExactBeatsWildcard(w: AcceptRange, e: AcceptRange, o: AcceptRange, other: AcceptRange,
                           accepts: seq<AcceptRange>, offers: seq<AcceptRange>, defaultOffer: AcceptRange)
    requires w.mediaType == e.mediaType && w.mediaType != "*" && w.subtype == "*" && e.subtype != "*"
    requires w.weight == e.weight && e.weight >= 0.0
    requires o.mediaType == other.mediaType == e.mediaType && o.subtype == e.subtype && other.subtype != e.subtype
    requires accepts == [w, e] || accepts == [e, w]
    requires offers == [o, other] || offers == [other, o]
    ensures NegotiatedRaw(accepts, offers, defaultOffer) == o.raw
  {
    var b0 := Initial(defaultOffer);
    if offers == [o, other] {
      ScanOffersPair(b0, o, other, accepts);
    } else {
      ScanOffersPair(b0, other, o, accepts);
    }
    if accepts == [w, e] {
      ScanAcceptsPair(b0, o, w, e);
      ScanAcceptsPair(ScanAccepts(b0, o, accepts), other, w, e);
      ScanAcceptsPair(b0, other, w, e);
      ScanAcceptsPair(ScanAccepts(b0, other, accepts), o, w, e);
    } else {
      ScanAcceptsPair(b0, o, e, w);
      ScanAcceptsPair(ScanAccepts(b0, o, accepts), other, e, w);
      ScanAcceptsPair(b0, other, e, w);
      ScanAcceptsPair(ScanAccepts(b0, other, accepts), o, e, w);
    }
  }

  /**
   * At equal weight, a range naming a type beats the range of any type:
   * whichever order the ranges and the two offers come in, the offer of the
   * named type is chosen over an offer of another type.
   */
  lemma TypeBeatsAnyType(any: AcceptRange, w: AcceptRange, o: AcceptRange, other: AcceptRange,
                         accepts: seq<AcceptRange>, offers: seq<AcceptRange>, defaultOffer: AcceptRange)
    requires any.mediaType == "*" && any.subtype == "*" && w.mediaType != "*" && w.subtype == "*"
    requires any.weight == w.weight && w.weight >= 0.0
    requires o.mediaType == w.mediaType && other.mediaType != w.mediaType
    requires accepts == [any, w] || accepts == [w, any]
    requires offers == [o, other] || offers == [other, o]
    ensures NegotiatedRaw(accepts, offers, defaultOffer) == o.raw
  {
    var b0 := Initial(defaultOffer);
    if offers == [o, other] {
      ScanOffersPair(b0, o, other, accepts);
    } else {
      ScanOffersPair(b0, other, o, accepts);
    }
    if accepts == [any, w] {
      ScanAcceptsPair(b0, o, any, w);
      ScanAcceptsPair(ScanAccepts(b0, o, accepts), other, any, w);
      ScanAcceptsPair(b0, other, any, w);
      ScanAcceptsPair(ScanAccepts(b0, other, accepts), o, any, w);
    } else {
      ScanAcceptsPair(b0, o, w, any);
      ScanAcceptsPair(ScanAccepts(b0, o, accepts), other, w, any);
      ScanAcceptsPair(b0, other, w, any);
      ScanAcceptsPair(ScanAccepts(b0, other, accepts), o, w, any);
    }
  }

  /** The score a range gives an offer it covers: its weight plus its booster. */
  function Score(accept: AcceptRange): real
  {
    accept.weight + Booster(accept)
  }

  /**
   * The inner loop body as its comments intend it: a range scoring higher
   * than the best so far always wins; only at an equal score does the
   * shared-parameter count decide; and the count recorded is always the
   * current best offer's own (0 for a wildcard match).
   */
  function CorrectedStep(b: Best, offer: AcceptRange, accept: AcceptRange): (r: Best)
    ensures !Matches(accept, offer) ==> r == b
    ensures r.weight >= b.weight
    ensures Matches(accept, offer) ==> r.weight >= Score(accept)
    ensures Matches(accept, offer) && Score(accept) > b.weight ==> r.raw == offer.raw && r.weight == Score(accept)
    ensures r == b || (Matches(accept, offer) && r.raw == offer.raw && r.weight == Score(accept))
    ensures Matches(accept, offer) && accept.subtype == "*" && Score(accept) >= b.weight
      ==> r == Best(offer.raw, Score(accept), 0)
    ensures var n := |SharedKeys(accept.parameters, offer.parameters)|;
      Matches(accept, offer) && accept.subtype != "*" && Score(accept) == b.weight
      ==> r == if n >= b.params then Best(offer.raw, Score(accept), n) else b
    ensures var n := |SharedKeys(accept.parameters, offer.parameters)|;
      Matches(accept, offer) && accept.subtype != "*" && Score(accept) > b.weight
      ==> r == Best(offer.raw, Score(accept), n)
  {
    var score := Score(accept);
    if b.weight > score then b
    else if accept.mediaType == "*" && accept.subtype == "*" then Best(offer.raw, score, 0)
    else if accept.subtype == "*" && offer.mediaType == accept.mediaType then Best(offer.raw, score, 0)
    else if accept.mediaType == offer.mediaType && accept.subtype == offer.subtype then
      var n := |SharedKeys(accept.parameters, offer.parameters)|;
      if score > b.weight || n >= b.params then Best(offer.raw, score, n) else b
    else b
  }

  /** The corrected inner loop. */
  function CorrectedScanAccepts(b: Best, offer: AcceptRange, accepts: seq<AcceptRange>): Best
  {
    if accepts == [] then b
    else CorrectedStep(CorrectedScanAccepts(b, offer, accepts[..|accepts| - 1]), offer, accepts[|accepts| - 1])
  }

  /** The corrected outer loop. */
  function CorrectedScanOffers(b: Best, offers: seq<AcceptRange>, accepts: seq<AcceptRange>): Best
  {
    if offers == [] then b
    else CorrectedScanAccepts(CorrectedScanOffers(b, offers[..|offers| - 1], accepts), offers[|offers| - 1], accepts)
  }

  /**
   * The corrected inner loop ends at a score no range covering the offer
   * exceeds, and either changes nothing or ends on the offer at the score of
   * a range that covers it.
   */
  lemma {:induction false} CorrectedScanAcceptsIsMax(b: Best, offer: AcceptRange, accepts: seq<AcceptRange>)
    ensures var r := CorrectedScanAccepts(b, offer, accepts);
      r.weight >= b.weight && forall a :: a in accepts && Matches(a, offer) ==> Score(a) <= r.weight
    ensures var r := CorrectedScanAccepts(b, offer, accepts);
      r == b || exists a :: a in accepts && Matches(a, offer) && r.raw == offer.raw && r.weight == Score(a)
  {
    if accepts != [] {
      var init := accepts[..|accepts| - 1];
      var last := accepts[|accepts| - 1];
      assert accepts == init + [last];
      CorrectedScanAcceptsIsMax(b, offer, init);
      var prev := CorrectedScanAccepts(b, offer, init);
      var r := CorrectedScanAccepts(b, offer, accepts);
      if r != prev {
        assert last in accepts && Matches(last, offer) && r.raw == offer.raw && r.weight == Score(last);
      } else if prev != b {
        var a :| a in init && Matches(a, offer) && prev.raw == offer.raw && prev.weight == Score(a);
        assert a in accepts;
      }
    }
  }

  /**
   * The corrected outer loop ends at the best score: no (offer, range) pair
   * that matches scores higher than the chosen one.
   */
  lemma {:induction false} CorrectedScanOffersIsMax(b: Best, offers: seq<AcceptRange>, accepts: seq<AcceptRange>)
    ensures var r := CorrectedScanOffers(b, offers, accepts);
      r.weight >= b.weight && forall o, a :: o in offers && a in accepts && Matches(a, o) ==> Score(a) <= r.weight
    ensures var r := CorrectedScanOffers(b, offers, accepts);
      r == b || exists o, a :: o in offers && a in accepts && Matches(a, o) && r.raw == o.raw && r.weight == Score(a)
  {
    if offers != [] {
      var init := offers[..|offers| - 1];
      var last := offers[|offers| - 1];
      var prev := CorrectedScanOffers(b, init, accepts);
      var r := CorrectedScanOffers(b, offers, accepts);
      assert offers == init + [last];
      CorrectedScanOffersIsMax(b, init, accepts);
      CorrectedScanAcceptsIsMax(prev, last, accepts);
      if r != prev {
        var a :| a in accepts && Matches(a, last) && r.raw == last.raw && r.weight == Score(a);
        assert last in offers;
      } else if prev != b {
        var o, a :| o in init && a in accepts && Matches(a, o) && prev.raw == o.raw && prev.weight == Score(a);
        assert o in offers;
      }
    }
  }

  /**
   * The shared-parameter count of an earlier exact match is never reset, so
   * a later exact match with a higher weight but fewer shared parameters is
   * passed over: against `a/b;x=1;q=0.5,a/c` the offers `a/b;x=1` and `a/c`
   * give `a/b;x=1` (score 2.5), though `a/c` scores 3.
   */
  lemma StaleParamCountOverridesWeight()
    ensures var a1, a2 := AcceptRange("a", "b", 0.5, map["x" := "1", "q" := "0.5"], "a/b;x=1;q=0.5"), AcceptRange("a", "c", 1.0, map[], "a/c");
      var o1, o2 := AcceptRange("a", "b", 1.0, map["x" := "1"], "a/b;x=1"), AcceptRange("a", "c", 1.0, map[], "a/c");
      var d := AcceptRange("a", "b", 1.0, map["x" := "1"], "a/b;x=1");
      && Matches(a2, o2) && Score(a2) == 3.0 && Score(a1) == 2.5
      && NegotiatedRaw([a1, a2], [o1, o2], d) == "a/b;x=1"
      && ScanOffers(Initial(d), [o1, o2], [a1, a2]).weight == 2.5
      && CorrectedScanOffers(Initial(d), [o1, o2], [a1, a2]).raw == "a/c"
  {
    var a1, a2 := AcceptRange("a", "b", 0.5, map["x" := "1", "q" := "0.5"], "a/b;x=1;q=0.5"), AcceptRange("a", "c", 1.0, map[], "a/c");
    var o1, o2 := AcceptRange("a", "b", 1.0, map["x" := "1"], "a/b;x=1"), AcceptRange("a", "c", 1.0, map[], "a/c");
    var d := AcceptRange("a", "b", 1.0, map["x" := "1"], "a/b;x=1");
    var b0 := Initial(d);
    assert SharedKeys(map["x" := "1", "q" := "0.5"], map["x" := "1"]) == {"x"};
    SharedKeysBound(map[], map[]);
    ScanOffersPair(b0, o1, o2, [a1, a2]);
    ScanAcceptsPair(b0, o1, a1, a2);
    var b1 := ScanAccepts(b0, o1, [a1, a2]);
    assert b1 == Best("a/b;x=1", 2.5, 1);
    ScanAcceptsPair(b1, o2, a1, a2);
    assert [o1, o2][..1] == [o1] && [a1, a2][..1] == [a1] && [a1][..0] == [] && [o1][..0] == [];
    assert CorrectedScanAccepts(b0, o1, [a1]) == CorrectedStep(b0, o1, a1);
    var c1 := CorrectedScanAccepts(b0, o1, [a1, a2]);
    assert c1 == CorrectedStep(CorrectedScanAccepts(b0, o1, [a1]), o1, a2);
    assert c1 == Best("a/b;x=1", 2.5, 1);
    assert CorrectedScanOffers(b0, [o1], [a1, a2]) == CorrectedScanAccepts(CorrectedScanOffers(b0, [], [a1, a2]), o1, [a1, a2]);
    assert CorrectedScanOffers(b0, [o1, o2], [a1, a2]) == CorrectedScanAccepts(CorrectedScanOffers(b0, [o1], [a1, a2]), o2, [a1, a2]);
    assert CorrectedScanAccepts(c1, o2, [a1]) == CorrectedStep(c1, o2, a1) == c1;
    assert CorrectedScanAccepts(c1, o2, [a1, a2]) == CorrectedStep(CorrectedScanAccepts(c1, o2, [a1]), o2, a2);
  }

  /** negotiateContentType: the nested best-so-far loop. */
  method NegotiateRanges(accepts: seq<AcceptRange>, offers: seq<AcceptRange>, defaultOffer: AcceptRange)
    returns (best: string)
    ensures best == NegotiatedRaw(accepts, offers, defaultOffer)
    ensures best == defaultOffer.raw || exists i :: 0 <= i < |offers| && best == offers[i].raw
    ensures offers == [] || accepts == [] ==> best == defaultOffer.raw
  {
    best := defaultOffer.raw;
    var bestWeight: real := 0.0;
    var bestParams: nat := 0;
    for i := 0 to |offers|
      invariant Best(best, bestWeight, bestParams) == ScanOffers(Initial(defaultOffer), offers[..i], accepts)
    {
      var offer := offers[i];
      ghost var start := Best(best, bestWeight, bestParams);
      for j := 0 to |accepts|
        invariant Best(best, bestWeight, bestParams) == ScanAccepts(start, offer, accepts[..j])
        invariant bestWeight >= start.weight && bestParams >= start.params
      {
        var accept := accepts[j];
        // any type scores 0, a whole type 1, an exact type and subtype 2
        var booster: real := 0.0;
        if accept.mediaType != "*" {
          booster := booster + 1.0;
          if accept.subtype != "*" {
            booster := booster + 1.0;
          }
        }
        assert accepts[..j + 1][..j] == accepts[..j];
        if bestWeight > accept.weight + booster {
          continue;
        } else if accept.mediaType == "*" && accept.subtype == "*" {
          best := offer.raw;
          bestWeight := accept.weight + booster;
        } else if accept.subtype == "*" && offer.mediaType == accept.mediaType {
          best := offer.raw;
          bestWeight := accept.weight + booster;
        } else if accept.mediaType == offer.mediaType && accept.subtype == offer.subtype {
          var paramCount := CompareParams(accept.parameters, offer.parameters);
          if paramCount >= bestParams {
            best := offer.raw;
            bestWeight := accept.weight + booster;
            bestParams := paramCount;
          }
        }
      }
      assert accepts[..|accepts|] == accepts;
      assert offers[..i + 1][..i] == offers[..i];
    }
    assert offers[..|offers|] == offers;
    ScanOffersPicksOffer(Initial(defaultOffer), offers, accepts);
    if offers == [] || accepts == [] {
      ScanOffersNoMatch(Initial(defaultOffer), offers, accepts);
    }
  }

  /** The text NegotiateContentType returns for an Accept header, offers and a default. */
  function Negotiated(header: string, offers: seq<string>, defaultOffer: string, parse: FloatParser): string
  {
    NegotiatedRaw(AcceptRanges(header, parse), ParseAll(offers, parse), ParseAcceptRange(defaultOffer, parse))
  }

  /** The negotiated text is the default or one of the offered texts. */
  lemma NegotiatedIsOfferOrDefault(header: string, offers: seq<string>, defaultOffer: string, parse: FloatParser)
    ensures var r := Negotiated(header, offers, defaultOffer, parse);
      r == defaultOffer || exists i :: 0 <= i < |offers| && r == offers[i]
  {
    var rs := ParseAll(offers, parse);
    var r := Negotiated(header, offers, defaultOffer, parse);
    ScanOffersPicksOffer(Initial(ParseAcceptRange(defaultOffer, parse)), rs, AcceptRanges(header, parse));
    if r != defaultOffer {
      var i :| 0 <= i < |rs| && r == rs[i].raw;
      assert r == offers[i];
    }
  }

  /** NegotiateContentType: parse the header and the offers, then negotiate. */
  method NegotiateContentType(header: string, offers: seq<string>, defaultOffer: string, parse: FloatParser)
    returns (r: string)
    ensures r == Negotiated(header, offers, defaultOffer, parse)
    ensures r == defaultOffer || exists i :: 0 <= i < |offers| && r == offers[i]
  {
    var accepts := ParseAcceptRanges(header, parse);
    var offerRanges: seq<AcceptRange> := [];
    for i := 0 to |offers|
      invariant offerRanges == ParseAll(offers[..i], parse)
    {
      offerRanges := offerRanges + [ParseAcceptRange(offers[i], parse)];
      assert offers[..i + 1] == offers[..i] + [offers[i]];
      ParseAllSnoc(offers[..i], offers[i], parse);
    }
    assert offers[..|offers|] == offers;
    r := NegotiateRanges(accepts, offerRanges, ParseAcceptRange(defaultOffer, parse));
    NegotiatedIsOfferOrDefault(header, offers, defaultOffer, parse);
  }
}
