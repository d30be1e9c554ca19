/**
 * Reading one line of the log: `Formater.get_line_prefix_and_suffix` and the keyword lookup
 * `_consume` performs on its result (report.py).
 */
module Lines {
  import opened Wrappers
  import opened Text

  /** The three structural keywords; any other prefix makes a content line. */
  datatype Keyword = DateKw | StartKw | StopKw

  /** The spelling of a keyword in the log and in error messages. */
  function Name(k: Keyword): string {
    match k
    case DateKw => "date"
    case StartKw => "start"
    case StopKw => "stop"
  }

  /** The keyword a prefix names, if any: the lookup in the `_transitions` table. */
  function KeywordOf(prefix: string): (r: Option<Keyword>)
    ensures r.Some? ==> Name(r.value) == prefix
    ensures r.None? ==> forall k: Keyword :: Name(k) != prefix
  {
    if prefix == "date" then Some(DateKw)
    else if prefix == "start" then Some(StartKw)
    else if prefix == "stop" then Some(StopKw)
    else None
  }

  /** A line as `get_line_prefix_and_suffix` returns it: the stripped line, its prefix and suffix. */
  datatype Parts = Parts(line: string, prefix: string, suffix: Option<string>)

  /**
   * Strip the line, split it on every `:`, and keep the stripped first field as the prefix and
   * the stripped second field, if there is one, as the suffix.
   */
  function SplitLine(raw: string): (r: Parts)
    ensures r.line == Strip(raw)
    ensures Trimmed(r.prefix) && ':' !in r.prefix
    ensures r.suffix.None? <==> ':' !in r.line
    ensures r.suffix.None? ==> r.prefix == r.line
    ensures r.suffix.Some? ==> Trimmed(r.suffix.value) && ':' !in r.suffix.value
  {
    var line := Strip(raw);
    var fields := Split(line, ':');
    StripOmits(fields[0], ':');
    var prefix := Strip(fields[0]);
    var suffix := if |fields| > 1 then StripOmits(fields[1], ':'); Some(Strip(fields[1])) else None;
    StripTrimmed(line);
    Parts(line, prefix, suffix)
  }

  /**
   * With the stripped line's first `:` at `i` and its second `:` (or its end) at `j`, the prefix
   * is the stripped text before `i` and the suffix the stripped text between `i` and `j`.
   */
  lemma {:induction false} SplitLineFields(raw: string, i: nat, j: nat)
    requires var line := Strip(raw);
             && i < j <= |line| && line[i] == ':' && ':' !in line[..i]
             && ':' !in line[i + 1..j] && (j == |line| || line[j] == ':')
    ensures SplitLine(raw).prefix == Strip(Strip(raw)[..i])
    ensures SplitLine(raw).suffix == Some(Strip(Strip(raw)[i + 1..j]))
  {
    SplitFirstTwo(Strip(raw), ':', i, j);
  }

  lemma {:induction false} NameTrimmed(k: Keyword)
    ensures Trimmed(Name(k)) && ':' !in Name(k) && Name(k) != []
  {
    match k
    case DateKw => assert !IsSpace('d') && !IsSpace('e');
    case StartKw => assert !IsSpace('s') && !IsSpace('t');
    case StopKw => assert !IsSpace('s') && !IsSpace('p');
  }

  /** A line once read: its keyword (None for a content line), its suffix and its stripped text. */
  datatype Token = Token(keyword: Option<Keyword>, suffix: Option<string>, line: string)

  /** `get_line_prefix_and_suffix` followed by the lookup of the prefix in `_transitions`. */
  function Classify(raw: string): (t: Token)
    ensures t.line == Strip(raw)
    ensures t.keyword.Some? ==> SplitLine(raw).prefix == Name(t.keyword.value)
    ensures t.keyword.None? ==> forall k: Keyword :: SplitLine(raw).prefix != Name(k)
    ensures t.suffix == SplitLine(raw).suffix
  {
    var parts := SplitLine(raw);
    Token(KeywordOf(parts.prefix), parts.suffix, parts.line)
  }

  /** A keyword alone on its line, without a colon, is still that keyword, with no suffix. */
  lemma {:induction false} BareKeyword(raw: string, k: Keyword)
    requires Strip(raw) == Name(k)
    ensures Classify(raw) == Token(Some(k), None, Name(k))
  {
    NameTrimmed(k);
    var parts := SplitLine(raw);
    assert parts.suffix.None? && parts.prefix == Name(k);
    KeywordOfName(k);
  }

  /**
   * A keyword line as it is usually written, `keyword: suffix` and a newline, reads as that
   * keyword with that suffix, and prints without the newline.
   */
  lemma {:induction false} KeywordLine(k: Keyword, t: string)
    requires t != [] && Trimmed(t) && ':' !in t
    ensures Classify(Name(k) + ": " + t + "\n") == Token(Some(k), Some(t), Name(k) + ": " + t)
  {
    KeywordLineParts(k, t);
    KeywordOfName(k);
  }

  lemma {:induction false} KeywordLineParts(k: Keyword, t: string)
    requires t != [] && Trimmed(t) && ':' !in t
    ensures SplitLine(Name(k) + ": " + t + "\n") == Parts(Name(k) + ": " + t, Name(k), Some(t))
  {
    KeywordLineStrip(k, t);
    KeywordLineFields(k, t);
    NameTrimmed(k);
    StripTrimmed(Name(k));
    StripBlankBefore(t);
  }

  lemma {:induction false} KeywordLineFields(k: Keyword, t: string)
    requires t != [] && Trimmed(t) && ':' !in t
    ensures SplitLine(Name(k) + ": " + t + "\n").prefix == Strip(Name(k))
    ensures SplitLine(Name(k) + ": " + t + "\n").suffix == Some(Strip(" " + t))
  {
    KeywordLineStrip(k, t);
    NameTrimmed(k);
    OneColonFields(Name(k) + ": " + t + "\n", Name(k), t);
  }

  /** A stripped line `p: t` with no other colon has prefix `p` and suffix `t`, each stripped. */
  lemma {:induction false} OneColonFields(raw: string, p: string, t: string)
    requires Strip(raw) == p + ": " + t && ':' !in p && ':' !in t
    ensures SplitLine(raw).prefix == Strip(p) && SplitLine(raw).suffix == Some(Strip(" " + t))
  {
    var rest := " " + t;
    assert p + ": " + t == Join([p, rest], ':');
    assert ':' !in rest;
    SplitJoin([p, rest], ':');
  }

  lemma {:induction false} KeywordLineStrip(k: Keyword, t: string)
    requires t != [] && Trimmed(t)
    ensures Strip(Name(k) + ": " + t + "\n") == Name(k) + ": " + t
  {
    var line := Name(k) + ": " + t;
    NameTrimmed(k);
    assert line[0] == Name(k)[0] && line[|line| - 1] == t[|t| - 1];
    StripNewline(line);
  }

  lemma {:induction false} KeywordOfName(k: Keyword)
    ensures KeywordOf(Name(k)) == Some(k)
  {
  }

  /** Every line of a list, read. */
  function Tokens(lines: seq<string>): (toks: seq<Token>)
    ensures |toks| == |lines|
    ensures forall j :: 0 <= j < |lines| ==> toks[j] == Classify(lines[j])
  {
    seq(|lines|, j requires 0 <= j < |lines| => Classify(lines[j]))
  }
}
