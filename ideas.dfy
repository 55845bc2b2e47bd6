/**
 * What one submitted idea is made of: the text the user typed, the analysis
 * the in-browser models return for it, and the record the trajectory keeps.
 */
module Ideas {

  /** Length of the vectors the feature-extraction model (all-MiniLM-L6-v2) returns. */
  const EMBEDDING_DIM: nat := 384

  /** A mean-pooled, normalised sentence embedding. */
  type Embedding = v: seq<real> | |v| == EMBEDDING_DIM witness seq(EMBEDDING_DIM, _ => 0.0)

  /** The `analysis` object built in handleInput: top-ranked label and embedding. */
  datatype Analysis = Analysis(intent: string, vector: Embedding)

  /**
   * What the awaited classifier and encoder calls produce: an analysis, or an
   * exception (model not ready, call threw) caught by handleInput.
   */
  datatype AnalysisResult = AnalysisFailed | Analyzed(analysis: Analysis)

  /** A canvas point. */
  datatype Point = Point(x: real, y: real)

  /** One entry of `ideaTrajectory`: the idea's text and where it was planted. */
  datatype IdeaRecord = IdeaRecord(text: string, x: real, y: real)

  /** The texts of a trajectory, in order. */
  function Texts(trajectory: seq<IdeaRecord>): (texts: seq<string>)
    ensures |texts| == |trajectory|
    ensures forall i :: 0 <= i < |trajectory| ==> texts[i] == trajectory[i].text
  {
    seq(|trajectory|, i requires 0 <= i < |trajectory| => trajectory[i].text)
  }

  /**
   * The characters String.prototype.trim removes: the ECMAScript WhiteSpace
   * set (TAB, VT, FF, SPACE, NBSP, ZWNBSP and the Unicode Zs category) and
   * the LineTerminator set (LF, CR, LS, PS).
   */
  predicate IsTrimmable(c: char)
  {
    c in {'\t', '\U{000B}', '\U{000C}', ' ', '\U{00A0}', '\U{FEFF}',
          '\U{1680}', '\U{202F}', '\U{205F}', '\U{3000}',
          '\n', '\r', '\U{2028}', '\U{2029}'}
    || ('\U{2000}' <= c <= '\U{200A}')
  }

  /** The leading trimmable characters removed: a suffix of `s`. */
  function TrimStart(s: string): (r: string)
    ensures |r| <= |s| && r == s[|s| - |r|..]
    ensures r != [] ==> !IsTrimmable(r[0])
    ensures forall i :: 0 <= i < |s| - |r| ==> IsTrimmable(s[i])
  {
    if s != [] && IsTrimmable(s[0]) then TrimStart(s[1..]) else s
  }

  /** The trailing trimmable characters removed: a prefix of `s`. */
  function TrimEnd(s: string): (r: string)
    ensures |r| <= |s| && r == s[..|r|]
    ensures r != [] ==> !IsTrimmable(r[|r| - 1])
    ensures forall i :: |r| <= i < |s| ==> IsTrimmable(s[i])
  {
    if s != [] && IsTrimmable(s[|s| - 1]) then TrimEnd(s[..|s| - 1]) else s
  }

  /** String.prototype.trim. */
  function Trim(s: string): string
  {
    TrimEnd(TrimStart(s))
  }

  /** `text.trim() === ''`: every character is trimmable. */
  predicate IsBlank(text: string)
  {
    forall i :: 0 <= i < |text| ==> IsTrimmable(text[i])
  }

  /**
   * The blank test the keydown handler applies, `text.trim() === ''`, holds
   * exactly when every character of the text is trimmable.
   */
  lemma BlankIffTrimsToEmpty(text: string)
    ensures IsBlank(text) <==> Trim(text) == []
  {
  }
}
