/** The ad-hoc field scanner the control API uses to read a flat JSON
    object: it finds the first `"key":` marker and reads one value after it,
    without parsing the object as a whole. */
module JsonScan {
  import opened JavaText

  /** The text the scanner searches for: the quoted key and a colon. */
  function Marker(key: string): string {
    "\"" + key + "\":"
  }

  predicate IsWordChar(c: char) { IsLetter(c) || IsDigit(c) }

  predicate IsNumberChar(c: char) { IsDigit(c) || c == '.' }

  /** The first position at or after `i` that is not whitespace. */
  function SkipWhitespace(s: string, i: nat): (j: nat)
    requires i <= |s|
    decreases |s| - i
    ensures i <= j <= |s|
    ensures forall k :: i <= k < j ==> IsWhitespace(s[k])
    ensures j < |s| ==> !IsWhitespace(s[j])
  {
    if i < |s| && IsWhitespace(s[i]) then SkipWhitespace(s, i + 1) else i
  }

  /** The end of the longest run of letters and digits starting at `i`. */
  function WordEnd(s: string, i: nat): (j: nat)
    requires i <= |s|
    decreases |s| - i
    ensures i <= j <= |s|
    ensures forall k :: i <= k < j ==> IsWordChar(s[k])
    ensures j < |s| ==> !IsWordChar(s[j])
  {
    if i < |s| && IsWordChar(s[i]) then WordEnd(s, i + 1) else i
  }

  /** The end of the longest run of digits and dots starting at `i`. */
  function NumberEnd(s: string, i: nat): (j: nat)
    requires i <= |s|
    decreases |s| - i
    ensures i <= j <= |s|
    ensures forall k :: i <= k < j ==> IsNumberChar(s[k])
    ensures j < |s| ==> !IsNumberChar(s[j])
  {
    if i < |s| && IsNumberChar(s[i]) then NumberEnd(s, i + 1) else i
  }

  /** What the scanner reads for `key` from `json`: "" when the marker is
      absent, when only whitespace follows it, when a quoted value is not
      closed, or when the value starts with anything but a quote, `t`, `f`
      or a digit; otherwise the text up to the next quote (no escapes), the
      run of letters and digits, or the run of digits and dots. */
  function JsonValue(json: string, key: string): string {
    match ValueStart(json, key)
    case None => ""
    case Some(j) => ValueAt(json, j)
  }

  /** Where the value for `key` starts: the first position after the first
      marker that is not whitespace; None when there is no marker. */
  function ValueStart(json: string, key: string): (r: Option<nat>)
    ensures r.Some? ==> r.value <= |json|
  {
    match IndexOf(json, Marker(key))
    case None => None
    case Some(i) => Some(SkipWhitespace(json, i + |Marker(key)|))
  }

  /** The value that starts at position `j`, the first position after the
      marker that is not whitespace. */
  function ValueAt(json: string, j: nat): string
    requires j <= |json|
  {
    if j == |json| then ""
    else if json[j] == '"' then
      match IndexOfFrom(json, "\"", j + 1)
      case None => ""
      case Some(e) => json[j + 1..e]
    else if json[j] == 't' || json[j] == 'f' then json[j..WordEnd(json, j)]
    else if IsDigit(json[j]) then json[j..NumberEnd(json, j)]
    else ""
  }

  /** extractJsonValue: the scanner itself, stepping an index through the
      text. */
  method ExtractJsonValue(json: string, key: string) returns (value: string)
    ensures value == JsonValue(json, key)
  {
    var searchKey := Marker(key);
    var found := IndexOf(json, searchKey);
    if found.None? {
      return "";
    }
    var from := found.value + |searchKey|;
    var start := from;
    while start < |json| && IsWhitespace(json[start])
      invariant from <= start <= |json|
      invariant SkipWhitespace(json, from) == SkipWhitespace(json, start)
    {
      start := start + 1;
    }
    assert ValueStart(json, key) == Some(start);
    value := ReadValueAt(json, start);
  }

  /** The second half of extractJsonValue: reads one value at `start`. */
  method ReadValueAt(json: string, start: nat) returns (value: string)
    requires start <= |json|
    ensures value == ValueAt(json, start)
  {
    if start >= |json| {
      return "";
    }
    var startChar := json[start];
    if startChar == '"' {
      var endIndex := IndexOfFrom(json, "\"", start + 1);
      if endIndex.None? {
        value := "";
      } else {
        value := json[start + 1..endIndex.value];
      }
    } else if startChar == 't' || startChar == 'f' {
      var endIndex := start;
      while endIndex < |json| && IsWordChar(json[endIndex])
        invariant start <= endIndex <= |json|
        invariant WordEnd(json, start) == WordEnd(json, endIndex)
      {
        endIndex := endIndex + 1;
      }
      value := json[start..endIndex];
    } else if IsDigit(startChar) {
      var endIndex := start;
      while endIndex < |json| && IsNumberChar(json[endIndex])
        invariant start <= endIndex <= |json|
        invariant NumberEnd(json, start) == NumberEnd(json, endIndex)
      {
        endIndex := endIndex + 1;
      }
      value := json[start..endIndex];
    } else {
      value := "";
    }
  }

  /** Whatever the scanner returns is a piece of the input text. */
  lemma JsonValueIsSubstring(json: string, key: string)
    ensures exists i, j :: 0 <= i <= j <= |json| && json[i..j] == JsonValue(json, key)
  {
    match ValueStart(json, key)
    case None =>
      assert json[0..0] == JsonValue(json, key);
    case Some(q) =>
      ValueAtIsSubstring(json, q);
  }

  lemma ValueAtIsSubstring(json: string, q: nat)
    requires q <= |json|
    ensures exists i, j :: 0 <= i <= j <= |json| && json[i..j] == ValueAt(json, q)
  {
    var v := ValueAt(json, q);
    if q == |json| {
      assert json[0..0] == v;
    } else if json[q] == '"' {
      match IndexOfFrom(json, "\"", q + 1)
      case None =>
        assert json[0..0] == v;
      case Some(e) =>
        assert json[q + 1..e] == v;
    } else if json[q] == 't' || json[q] == 'f' {
      assert json[q..WordEnd(json, q)] == v;
    } else if IsDigit(json[q]) {
      assert json[q..NumberEnd(json, q)] == v;
    } else {
      assert json[0..0] == v;
    }
  }

  /** A quoted field: after the first marker for `key` and any whitespace,
      the value is the text between the quotes. */
  lemma ReadsQuotedValue(json: string, key: string, pre: string, ws: string, v: string, post: string)
    requires json == pre + Marker(key) + ws + "\"" + v + "\"" + post
    requires forall j: nat :: j < |pre| ==> !OccursAt(json, Marker(key), j)
    requires forall k :: 0 <= k < |ws| ==> IsWhitespace(ws[k])
    requires forall k :: 0 <= k < |v| ==> v[k] != '"'
    ensures JsonValue(json, key) == v
  {
    var rest := "\"" + v + "\"" + post;
    assert json == pre + Marker(key) + ws + rest;
    var q := Layout(json, key, pre, ws, rest);
    QuotedValueAt(json, q, v, post);
  }

  /** A quote that is never closed: the value is empty, however much text
      follows the opening quote. */
  lemma ReadsUnclosedQuote(json: string, key: string, pre: string, ws: string, v: string)
    requires json == pre + Marker(key) + ws + "\"" + v
    requires forall j: nat :: j < |pre| ==> !OccursAt(json, Marker(key), j)
    requires forall k :: 0 <= k < |ws| ==> IsWhitespace(ws[k])
    requires forall k :: 0 <= k < |v| ==> v[k] != '"'
    ensures JsonValue(json, key) == ""
  {
    var q := Layout(json, key, pre, ws, "\"" + v);
    UnclosedQuoteAt(json, q, v);
  }

  /** A literal token such as `true` or `false`: the value is the whole
      run of letters and digits that follows the marker. */
  lemma ReadsWordValue(json: string, key: string, pre: string, ws: string, word: string, post: string)
    requires json == pre + Marker(key) + ws + word + post
    requires forall j: nat :: j < |pre| ==> !OccursAt(json, Marker(key), j)
    requires forall k :: 0 <= k < |ws| ==> IsWhitespace(ws[k])
    requires |word| > 0 && (word[0] == 't' || word[0] == 'f')
    requires forall k :: 0 <= k < |word| ==> IsWordChar(word[k])
    requires post == [] || !IsWordChar(post[0])
    ensures JsonValue(json, key) == word
  {
    var q := Layout(json, key, pre, ws, word + post);
    WordValueAt(json, q, word, post);
  }

  /** A bare number: the value is the run of digits and dots. */
  lemma ReadsNumberValue(json: string, key: string, pre: string, ws: string, num: string, post: string)
    requires json == pre + Marker(key) + ws + num + post
    requires forall j: nat :: j < |pre| ==> !OccursAt(json, Marker(key), j)
    requires forall k :: 0 <= k < |ws| ==> IsWhitespace(ws[k])
    requires |num| > 0 && IsDigit(num[0])
    requires forall k :: 0 <= k < |num| ==> IsNumberChar(num[k])
    requires post == [] || !IsNumberChar(post[0])
    ensures JsonValue(json, key) == num
  {
    var q := Layout(json, key, pre, ws, num + post);
    NumberValueAt(json, q, num, post);
  }

  /** Anything else after the marker yields the empty string. */
  lemma ReadsNothingElse(json: string, key: string, pre: string, ws: string, post: string)
    requires json == pre + Marker(key) + ws + post
    requires forall j: nat :: j < |pre| ==> !OccursAt(json, Marker(key), j)
    requires forall k :: 0 <= k < |ws| ==> IsWhitespace(ws[k])
    requires post == [] || (post[0] != '"' && post[0] != 't' && post[0] != 'f'
                            && !IsDigit(post[0]) && !IsWhitespace(post[0]))
    ensures JsonValue(json, key) == ""
  {
    var q := Layout(json, key, pre, ws, post);
  }

  /** For a text made of a prefix without the marker, the marker,
      whitespace and the rest: the value is read where the rest begins, at
      position `q`. */
  lemma Layout(json: string, key: string, pre: string, ws: string, rest: string) returns (q: nat)
    requires json == pre + Marker(key) + ws + rest
    requires forall j: nat :: j < |pre| ==> !OccursAt(json, Marker(key), j)
    requires forall k :: 0 <= k < |ws| ==> IsWhitespace(ws[k])
    requires rest == [] || !IsWhitespace(rest[0])
    ensures q == |json| - |rest| && json[q..] == rest
    ensures JsonValue(json, key) == ValueAt(json, q)
  {
    var m := Marker(key);
    var at := |pre|;
    q := at + |m| + |ws|;
    assert json[at..at + |m|] == m;
    assert forall k :: at + |m| <= k < q ==> json[k] == ws[k - at - |m|];
    assert json[q..] == rest;
    assert q < |json| ==> json[q] == rest[0];
    MarkerAt(json, key, at, q);
  }

  /** Positional form: the first marker at `at`, whitespace up to `q`. */
  lemma MarkerAt(json: string, key: string, at: nat, q: nat)
    requires at + |Marker(key)| <= q <= |json|
    requires OccursAt(json, Marker(key), at)
    requires forall j: nat :: j < at ==> !OccursAt(json, Marker(key), j)
    requires forall k :: at + |Marker(key)| <= k < q ==> IsWhitespace(json[k])
    requires q < |json| ==> !IsWhitespace(json[q])
    ensures ValueStart(json, key) == Some(q)
  {
    IndexOfIsFirst(json, Marker(key), 0, at);
    SkipsAll(json, at + |Marker(key)|, q);
  }

  /** A maximal letter/digit run starting with `t` or `f` at `q` reads as
      that run. */
  lemma WordValueAt(json: string, q: nat, word: string, post: string)
    requires q <= |json| && json[q..] == word + post
    requires |word| > 0 && (word[0] == 't' || word[0] == 'f')
    requires forall k :: 0 <= k < |word| ==> IsWordChar(word[k])
    requires post == [] || !IsWordChar(post[0])
    ensures ValueAt(json, q) == word
  {
    assert forall k :: q <= k < q + |word| ==> json[k] == word[k - q];
    assert q + |word| < |json| ==> json[q + |word|] == post[0];
    RunEndsAt(json, q, q + |word|);
    assert json[q..q + |word|] == word;
  }

  /** A maximal digit/dot run starting with a digit at `q` reads as that
      run. */
  lemma NumberValueAt(json: string, q: nat, num: string, post: string)
    requires q <= |json| && json[q..] == num + post
    requires |num| > 0 && IsDigit(num[0])
    requires forall k :: 0 <= k < |num| ==> IsNumberChar(num[k])
    requires post == [] || !IsNumberChar(post[0])
    ensures ValueAt(json, q) == num
  {
    assert forall k :: q <= k < q + |num| ==> json[k] == num[k - q];
    assert q + |num| < |json| ==> json[q + |num|] == post[0];
    NumberRunEndsAt(json, q, q + |num|);
    assert json[q..q + |num|] == num;
  }

  /** A quote, a text without quotes and a closing quote at `q` read as
      that text. */
  lemma QuotedValueAt(json: string, q: nat, v: string, post: string)
    requires q <= |json| && json[q..] == "\"" + v + "\"" + post
    requires forall k :: 0 <= k < |v| ==> v[k] != '"'
    ensures ValueAt(json, q) == v
  {
    var e := q + 1 + |v|;
    assert json[q] == '"' && json[e] == '"';
    assert forall j :: q + 1 <= j < e ==> json[j] == v[j - q - 1];
    OccursAtChar(json, '"', e);
    forall j: nat | q + 1 <= j < e ensures !OccursAt(json, "\"", j) {
      OccursAtChar(json, '"', j);
    }
    IndexOfIsFirst(json, "\"", q + 1, e);
    assert json[q + 1..e] == v;
  }

  /** Positional form: an opening quote with no quote after it. */
  lemma UnclosedQuoteAt(json: string, q: nat, v: string)
    requires q <= |json| && json[q..] == "\"" + v
    requires forall k :: 0 <= k < |v| ==> v[k] != '"'
    ensures ValueAt(json, q) == ""
  {
    assert json[q] == '"';
    forall j: nat | q + 1 <= j ensures !OccursAt(json, "\"", j) {
      OccursAtChar(json, '"', j);
      if j < |json| {
        assert json[j] == v[j - q - 1];
      }
    }
  }

  /** When the marker does not occur, the scanner reads the empty string. */
  lemma ReadsNothingWithoutMarker(json: string, key: string)
    requires forall j: nat :: !OccursAt(json, Marker(key), j)
    ensures JsonValue(json, key) == ""
  {
  }

  lemma {:induction false} SkipsAll(s: string, i: nat, j: nat)
    requires i <= j <= |s|
    requires forall k :: i <= k < j ==> IsWhitespace(s[k])
    requires j < |s| ==> !IsWhitespace(s[j])
    ensures SkipWhitespace(s, i) == j
    decreases j - i
  {
    if i < j {
      SkipsAll(s, i + 1, j);
    }
  }

  lemma {:induction false} RunEndsAt(s: string, i: nat, j: nat)
    requires i <= j <= |s|
    requires forall k :: i <= k < j ==> IsWordChar(s[k])
    requires j < |s| ==> !IsWordChar(s[j])
    ensures WordEnd(s, i) == j
    decreases j - i
  {
    if i < j {
      RunEndsAt(s, i + 1, j);
    }
  }

  lemma {:induction false} NumberRunEndsAt(s: string, i: nat, j: nat)
    requires i <= j <= |s|
    requires forall k :: i <= k < j ==> IsNumberChar(s[k])
    requires j < |s| ==> !IsNumberChar(s[j])
    ensures NumberEnd(s, i) == j
    decreases j - i
  {
    if i < j {
      NumberRunEndsAt(s, i + 1, j);
    }
  }
}
