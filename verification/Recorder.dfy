/** The stored preview of a tool call's output (internal/recorder/recorder.go). */
module Recorder {
  import opened Bytes
  import opened Utf8

  const DEFAULT_PREVIEW_BYTES := 64 * 1024

  function PreviewLimit(previewBytes: int): (n: nat)
    ensures n > 0 && (previewBytes > 0 ==> n == previewBytes)
    ensures previewBytes <= 0 ==> n == 65536
  {
    if previewBytes <= 0 then DEFAULT_PREVIEW_BYTES else previewBytes
  }

  /** TruncateUTF8 as a function of the string and the limit. */
  function Preview(s: Text, limit: nat): (Text, bool) {
    if |s| <= limit then (s, false) else (Cut(s[..limit]), true)
  }

  method TruncateUTF8(s: Text, limit: nat) returns (cut: Text, dropped: bool)
    ensures (cut, dropped) == Preview(s, limit)
  {
    if |s| <= limit { return s, false; }
    cut := s[..limit];
    while |cut| > 0
      invariant Cut(cut) == Cut(s[..limit])
    {
      var d := DecodeLastRune(cut);
      DecodeLastMeaning(cut);
      if d.rune == RUNE_ERROR && d.size <= 1 {
        cut := cut[..|cut| - 1];
      } else {
        break;
      }
    }
    return cut, true;
  }

  /** The output columns of a history row. */
  datatype Recorded = Recorded(isError: bool, outputSize: nat, outputJSON: Text, truncated: bool)

  /** record: errors are kept whole with size 0; results keep a preview. */
  method Record(previewBytes: int, failed: bool, encoded: Text) returns (row: Recorded)
    ensures row.isError == failed
    ensures failed ==> row.outputSize == 0 && row.outputJSON == encoded && !row.truncated
    ensures !failed ==> row.outputSize == |encoded|
                        && (row.outputJSON, row.truncated) == Preview(encoded, PreviewLimit(previewBytes))
    ensures row.truncated <==> |row.outputJSON| < row.outputSize
  {
    if failed { return Recorded(true, 0, encoded, false); }
    var json, truncated := TruncateUTF8(encoded, PreviewLimit(previewBytes));
    row := Recorded(false, |encoded|, json, truncated);
    CutPrefix(if |encoded| > PreviewLimit(previewBytes) then encoded[..PreviewLimit(previewBytes)] else []);
  }

  /** For any bytes: what fits is kept whole, anything longer is cut to the
      longest prefix within the limit that ends in a rune. */
  lemma PreviewOfAnyBytes(s: Text, limit: nat)
    ensures var (p, dropped) := Preview(s, limit);
            if |s| <= limit then p == s && !dropped else dropped && LongestCut(p, s[..limit])
  {
    if |s| > limit { CutIsLongest(s[..limit]); }
  }

  /** For valid output the preview is the longest valid prefix within the
      limit, at most 3 bytes short of it when cut, and flagged exactly when
      something was dropped. */
  lemma PreviewIsLongestValid(s: Text, limit: nat)
    requires Valid(s)
    ensures var (p, dropped) := Preview(s, limit);
            && |p| <= |s| && p == s[..|p|] && |p| <= limit && Valid(p)
            && (forall i :: |p| < i <= limit && i <= |s| ==> !Valid(s[..i]))
            && (dropped <==> |p| < |s|)
            && (dropped ==> limit <= |p| + 3)
  {
    if |s| > limit { CutOfValid(s, limit); } else { assert s[..|s|] == s; }
  }
}
