/** The text helper of frontend/js/api.js that shortens post excerpts on the
    post cards. */
module FrontendApi {

  /** `text.substring(0, n)`: JavaScript clamps a negative end to 0 and an end
      past the string to its length. */
  function Substring(text: string, n: int): (s: string)
    ensures |s| == if n <= 0 then 0 else if n >= |text| then |text| else n
    ensures s == text[..|s|]
  {
    if n <= 0 then [] else if n >= |text| then text else text[..n]
  }

  /** `truncateText(text, maxLength = 150)`. */
  function TruncateText(text: string, maxLength: int := 150): (t: string)
    ensures |text| <= maxLength ==> t == text
    ensures |text| > maxLength ==>
              var n := if maxLength < 0 then 0 else maxLength;
              |t| == n + 3 && t[..n] == text[..n] && t[n..] == "..."
  {
    if |text| <= maxLength then text else Substring(text, maxLength) + "..."
  }

  /** Text no longer than `maxLength` comes back unchanged. */
  lemma TruncateShort(text: string, maxLength: int)
    requires |text| <= maxLength
    ensures TruncateText(text, maxLength) == text
  {
  }

  /** Longer text is cut to its first `maxLength` characters followed by
      "...", so the result has `maxLength + 3` characters. */
  lemma TruncateLong(text: string, maxLength: int)
    requires |text| > maxLength >= 0
    ensures TruncateText(text, maxLength) == text[..maxLength] + "..."
    ensures |TruncateText(text, maxLength)| == maxLength + 3
  {
  }

  /** With the default bound a long text becomes 153 characters. */
  lemma TruncateDefault(text: string)
    requires |text| > 150
    ensures |TruncateText(text)| == 153
    ensures TruncateText(text)[..150] == text[..150]
  {
  }

  /** Whatever the bound, the result begins with the first
      `min(|text|, maxLength)` characters of the text. */
  lemma TruncateKeepsPrefix(text: string, maxLength: int)
    ensures var n := if maxLength <= 0 then 0 else if maxLength < |text| then maxLength else |text|;
      n <= |TruncateText(text, maxLength)| && TruncateText(text, maxLength)[..n] == text[..n]
  {
    var t := TruncateText(text, maxLength);
    if |text| > maxLength {
      var p := Substring(text, maxLength);
      assert t == p + "..." && t[..|p|] == p;
    }
  }

  /** Truncating a truncated text with the same bound changes nothing. */
  lemma TruncateIdempotent(text: string, maxLength: int)
    ensures TruncateText(TruncateText(text, maxLength), maxLength) == TruncateText(text, maxLength)
  {
    var t := TruncateText(text, maxLength);
    if |text| > maxLength {
      var p := Substring(text, maxLength);
      assert t == p + "..." && |t| > maxLength;
      assert t[..|p|] == p;
      assert Substring(t, maxLength) == p;
    }
  }
}
