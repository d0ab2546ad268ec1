/**
 * The classifier reply parser (`parse_ai_response`): one `key: value` field per line,
 * split at the first colon, both halves stripped, later lines overriding earlier ones.
 */
module ResponseParser {
  import opened Text

  /** The line carries a field, i.e. it contains a colon. */
  predicate IsField(line: string) {
    ':' in line
  }

  /** The stripped text before the first colon. */
  function KeyOf(line: string): string
    requires IsField(line)
  {
    Strip(line[..FirstColon(line)])
  }

  /** The stripped text after the first colon; it may contain further colons. */
  function ValueOf(line: string): string
    requires IsField(line)
  {
    Strip(line[FirstColon(line) + 1..])
  }

  predicate HasKey(line: string, k: string) {
    IsField(line) && KeyOf(line) == k
  }

  /** The dictionary built from the lines in order: the last line wins, so it is inserted last. */
  function ParseLines(lines: seq<string>): map<string, string> {
    if lines == [] then map[]
    else
      var m := ParseLines(lines[..|lines| - 1]);
      var line := lines[|lines| - 1];
      if IsField(line) then m[KeyOf(line) := ValueOf(line)] else m
  }

  /** The dictionary `parse_ai_response(text)` returns. */
  function Parse(text: string): map<string, string> {
    ParseLines(SplitLines(text))
  }

  /** The parser as written: a loop over the lines that inserts into the dictionary in place. */
  method ParseAiResponse(text: string) returns (data: map<string, string>)
    ensures data == Parse(text)
  {
    var lines := SplitLines(text);
    data := map[];
    var i := 0;
    while i < |lines|
      invariant 0 <= i <= |lines|
      invariant data == ParseLines(lines[..i])
    {
      var line := lines[i];
      assert lines[..i + 1][..i] == lines[..i];
      if ':' in line {
        var colon := FirstColon(line);
        var key, value := line[..colon], line[colon + 1..];
        data := data[Strip(key) := Strip(value)];
      }
      i := i + 1;
    }
    assert lines[..|lines|] == lines;
  }

  /** The keys are exactly the stripped texts before the first colon of some line. */
  lemma {:induction false} ParseKeys(lines: seq<string>, k: string)
    ensures k in ParseLines(lines) <==> exists i :: 0 <= i < |lines| && HasKey(lines[i], k)
  {
    if lines != [] {
      var init := lines[..|lines| - 1];
      ParseKeys(init, k);
      if exists i :: 0 <= i < |init| && HasKey(init[i], k) {
        var i :| 0 <= i < |init| && HasKey(init[i], k);
        assert lines[i] == init[i];
      }
      if exists i :: 0 <= i < |lines| && HasKey(lines[i], k) {
        var i :| 0 <= i < |lines| && HasKey(lines[i], k);
        if i < |init| { assert init[i] == lines[i]; }
      }
    }
  }

  /** The last line carrying a key decides that key's value. */
  lemma {:induction false} ParseLastWins(lines: seq<string>, i: nat)
    requires i < |lines| && IsField(lines[i])
    requires forall j :: i < j < |lines| ==> !HasKey(lines[j], KeyOf(lines[i]))
    ensures KeyOf(lines[i]) in ParseLines(lines)
    ensures ParseLines(lines)[KeyOf(lines[i])] == ValueOf(lines[i])
  {
    var init := lines[..|lines| - 1];
    if i < |lines| - 1 {
      forall j | i < j < |init| ensures !HasKey(init[j], KeyOf(init[i])) {
        assert init[j] == lines[j];
      }
      ParseLastWins(init, i);
    }
  }

  /** Every value in the dictionary comes from the last line carrying its key. */
  lemma {:induction false} ParseValueSource(lines: seq<string>, k: string)
    requires k in ParseLines(lines)
    ensures exists i :: 0 <= i < |lines| && HasKey(lines[i], k) && ParseLines(lines)[k] == ValueOf(lines[i])
                        && forall j :: i < j < |lines| ==> !HasKey(lines[j], k)
  {
    var init := lines[..|lines| - 1];
    var last := lines[|lines| - 1];
    if HasKey(last, k) {
      assert HasKey(lines[|lines| - 1], k);
    } else {
      assert k in ParseLines(init);
      ParseValueSource(init, k);
      var i :| 0 <= i < |init| && HasKey(init[i], k) && ParseLines(init)[k] == ValueOf(init[i])
               && forall j :: i < j < |init| ==> !HasKey(init[j], k);
      assert lines[i] == init[i];
      forall j | i < j < |lines| ensures !HasKey(lines[j], k) {
        if j < |init| { assert lines[j] == init[j]; }
      }
    }
  }

  /** Lines without a colon contribute nothing. */
  lemma {:induction false} ParseNoFields(lines: seq<string>)
    requires forall k :: 0 <= k < |lines| ==> !IsField(lines[k])
    ensures ParseLines(lines) == map[]
  {
    if lines != [] {
      ParseNoFields(lines[..|lines| - 1]);
    }
  }

  /** Text without any colon, in particular the empty reply, gives the empty dictionary. */
  lemma ParseColonFree(text: string)
    requires ':' !in text
    ensures Parse(text) == map[]
  {
    SplitLinesChars(text, ':');
    ParseNoFields(SplitLines(text));
  }

  lemma ParseEmpty()
    ensures Parse("") == map[]
  {
    ParseColonFree("");
  }

  /** The number of lines that carry a field. */
  function FieldCount(lines: seq<string>): nat {
    if lines == [] then 0
    else FieldCount(lines[..|lines| - 1]) + (if IsField(lines[|lines| - 1]) then 1 else 0)
  }

  predicate DistinctKeys(lines: seq<string>) {
    forall i, j :: 0 <= i < j < |lines| && IsField(lines[i]) && IsField(lines[j]) ==> KeyOf(lines[i]) != KeyOf(lines[j])
  }

  /** With no repeated key, every field line yields its own entry. */
  lemma {:induction false} ParseDistinctCount(lines: seq<string>)
    requires DistinctKeys(lines)
    ensures |ParseLines(lines)| == FieldCount(lines)
  {
    if lines != [] {
      var init := lines[..|lines| - 1];
      var last := lines[|lines| - 1];
      assert DistinctKeys(init) by {
        forall i, j | 0 <= i < j < |init| && IsField(init[i]) && IsField(init[j])
          ensures KeyOf(init[i]) != KeyOf(init[j])
        {
          assert init[i] == lines[i] && init[j] == lines[j];
        }
      }
      ParseDistinctCount(init);
      if IsField(last) {
        ParseKeys(init, KeyOf(last));
      }
    }
  }

  /** Only the first colon splits: a value may hold more colons. */
  lemma FieldLine(a: string, b: string)
    requires ':' !in a
    ensures IsField(a + ":" + b)
    ensures KeyOf(a + ":" + b) == Strip(a) && ValueOf(a + ":" + b) == Strip(b)
  {
    var line := a + ":" + b;
    assert line[|a|] == ':';
    FirstColonAfter(a, b);
    assert line[..|a|] == a && line[|a| + 1..] == b;
  }

  /** A reply made of one field line is the dictionary holding that one field. */
  lemma SingleFieldLine(a: string, b: string)
    requires ':' !in a && '\n' !in a && '\n' !in b
    ensures Parse(a + ":" + b) == map[Strip(a) := Strip(b)]
  {
    var line := a + ":" + b;
    FieldLine(a, b);
    assert '\n' !in line by {
      assert forall i | 0 <= i < |line| :: line[i] == if i < |a| then a[i] else if i == |a| then ':' else b[i - |a| - 1];
    }
    SplitSingleLine(line);
    assert [line][..0] == [];
    assert ParseLines([line]) == ParseLines([])[KeyOf(line) := ValueOf(line)];
    assert Parse(line) == ParseLines([line]);
  }

  /** A value may itself hold colons: `key: a: b` maps `key` to `"a: b"`, as
      `"Explanation: a: b"` maps `Explanation` to `"a: b"`. */
  lemma ValueKeepsColons(key: string, a: string, b: string)
    requires WellFormedKey(key) && WellFormedValue(a) && WellFormedValue(b)
    ensures Parse(key + ": " + a + ": " + b) == map[key := a + ": " + b]
  {
    var v := a + ": " + b;
    assert key + ": " + a + ": " + b == key + ":" + (" " + v + "");
    assert forall i | 0 <= i < |v| :: v[i] == ' ' || v[i] == ':' || v[i] in a || v[i] in b;
    assert v[0] == a[0] && v[|v| - 1] == b[|b| - 1];
    SingleFieldLine(key, " " + v + "");
    StripPadded(" ", v, "");
    assert key == "" + key + "";
    StripPadded("", key, "");
  }

  // ---------------------------------------------------------------- round trip

  /** A field name as the classifier is asked to write it: no colon, no line feed, no
      surrounding whitespace. */
  predicate WellFormedKey(k: string) {
    k != [] && ':' !in k && '\n' !in k && !IsSpace(k[0]) && !IsSpace(k[|k| - 1])
  }

  predicate WellFormedValue(v: string) {
    v != [] && '\n' !in v && !IsSpace(v[0]) && !IsSpace(v[|v| - 1])
  }

  /** The reply lines `key: value`, one per field. */
  function FieldLines(keys: seq<string>, values: seq<string>): (lines: seq<string>)
    requires |keys| == |values|
    ensures |lines| == |keys| && forall i :: 0 <= i < |keys| ==> lines[i] == keys[i] + ": " + values[i]
  {
    if keys == [] then []
    else FieldLines(keys[..|keys| - 1], values[..|values| - 1]) + [keys[|keys| - 1] + ": " + values[|values| - 1]]
  }

  /** The reply text in the format the classifier is asked for. */
  function FormatReply(keys: seq<string>, values: seq<string>): string
    requires |keys| == |values| && |keys| >= 1
  {
    JoinLines(FieldLines(keys, values))
  }

  /** One well-formed field line reads back as its key and value. */
  lemma FieldOf(key: string, value: string)
    requires WellFormedKey(key) && WellFormedValue(value)
    ensures IsField(key + ": " + value)
    ensures KeyOf(key + ": " + value) == key && ValueOf(key + ": " + value) == value
  {
    assert key + ": " + value == key + ":" + (" " + value);
    FieldLine(key, " " + value);
    StripWellFormed(key, value);
  }

  lemma StripWellFormed(key: string, value: string)
    requires WellFormedKey(key) && WellFormedValue(value)
    ensures Strip(key) == key && Strip(" " + value) == value
  {
    assert key == [] + key + [];
    StripPadded([], key, []);
    assert " " + value == " " + value + [];
    StripPadded(" ", value, []);
  }

  /** Parsing a formatted reply with distinct field names gives back every field and no other. */
  lemma ParseFormatReply(keys: seq<string>, values: seq<string>)
    requires |keys| == |values| && |keys| >= 1
    requires forall i :: 0 <= i < |keys| ==> WellFormedKey(keys[i]) && WellFormedValue(values[i])
    requires forall i, j :: 0 <= i < j < |keys| ==> keys[i] != keys[j]
    ensures forall i :: 0 <= i < |keys| ==> keys[i] in Parse(FormatReply(keys, values))
                                             && Parse(FormatReply(keys, values))[keys[i]] == values[i]
    ensures forall k :: k in Parse(FormatReply(keys, values)) ==> k in keys
  {
    var lines := FieldLines(keys, values);
    forall i | 0 <= i < |lines|
      ensures '\n' !in lines[i] && IsField(lines[i]) && KeyOf(lines[i]) == keys[i] && ValueOf(lines[i]) == values[i]
    {
      FieldOf(keys[i], values[i]);
      var line := lines[i];
      assert forall c | 0 <= c < |line| :: line[c] in keys[i] || line[c] in ": " || line[c] in values[i];
    }
    SplitJoinLines(lines);
    forall i | 0 <= i < |keys|
      ensures keys[i] in ParseLines(lines) && ParseLines(lines)[keys[i]] == values[i]
    {
      ParseLastWins(lines, i);
    }
    forall k | k in ParseLines(lines) ensures k in keys {
      ParseKeys(lines, k);
      var i :| 0 <= i < |lines| && HasKey(lines[i], k);
      assert keys[i] == k;
    }
  }
}
