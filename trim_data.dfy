/** `trimData` and `trimStr` (src/utilities/trim_data.ts): strings lose their
    surrounding whitespace and every run of spaces shrinks to one space;
    arrays and objects are trimmed element by element. */
module TrimData {
  import opened Outcomes
  import opened JsValue
  import opened Text

  /** The characters `String.prototype.trim` removes: ECMAScript WhiteSpace
      and LineTerminator code points. */
  predicate IsJsWhitespace(ch: char) {
    || ch == '\t' || ch == '\n' || ch == '\U{000B}' || ch == '\U{000C}' || ch == '\r'
    || ch == ' ' || ch == '\U{00A0}' || ch == '\U{1680}'
    || ('\U{2000}' <= ch <= '\U{200A}')
    || ch == '\U{2028}' || ch == '\U{2029}' || ch == '\U{202F}' || ch == '\U{205F}'
    || ch == '\U{3000}' || ch == '\U{FEFF}'
  }

  predicate AllWhitespace(s: string) {
    forall i :: 0 <= i < |s| ==> IsJsWhitespace(s[i])
  }

  /** Neither end of `s` is whitespace. */
  predicate Stripped(s: string) {
    s == [] || (!IsJsWhitespace(s[0]) && !IsJsWhitespace(s[|s| - 1]))
  }

  /** How many whitespace characters `s` starts with. */
  function LeadingSpace(s: string): (n: nat)
    ensures n <= |s|
    ensures forall i :: 0 <= i < n ==> IsJsWhitespace(s[i])
    ensures n < |s| ==> !IsJsWhitespace(s[n])
  {
    if s != [] && IsJsWhitespace(s[0]) then 1 + LeadingSpace(s[1..]) else 0
  }

  /** Where the whitespace `s` ends with begins. */
  function TrailingStart(s: string): (n: nat)
    ensures n <= |s|
    ensures forall i :: n <= i < |s| ==> IsJsWhitespace(s[i])
    ensures n > 0 ==> !IsJsWhitespace(s[n - 1])
  {
    if s != [] && IsJsWhitespace(s[|s| - 1]) then TrailingStart(s[..|s| - 1]) else |s|
  }

  /** `String.prototype.trim`: `s` without its leading and trailing
      whitespace; empty exactly when `s` is all whitespace. */
  function JsTrim(s: string): (r: string)
    ensures Stripped(r)
    ensures r == [] <==> AllWhitespace(s)
    ensures Stripped(s) ==> r == s
    ensures |r| <= |s|
  {
    var i := LeadingSpace(s);
    var j := TrailingStart(s);
    Cut(s, i, j);
    if i == |s| then [] else s[i..j]
  }

  /** `trim` cuts off the leading whitespace and a whitespace tail and
      keeps what lies between: the input is its leading whitespace, then the
      result, then whitespace. */
  lemma JsTrimPieces(s: string)
    ensures var n, r := LeadingSpace(s), JsTrim(s);
      && n + |r| <= |s|
      && s == s[..n] + r + s[n + |r|..]
      && AllWhitespace(s[n + |r|..])
  {
    var i, j := LeadingSpace(s), TrailingStart(s);
    Cut(s, i, j);
    var e := if i == |s| then i else j;
    ghost var r := JsTrim(s);
    assert r == s[i..e];
    Pieces(s, i, e, r);
  }

  /** The text between the leading and the trailing whitespace is
      stripped, empty exactly for an all-whitespace string, and all of a
      stripped string. */
  lemma Cut(s: string, i: nat, j: nat)
    requires i == LeadingSpace(s) && j == TrailingStart(s)
    ensures i < |s| ==> i < j
    ensures var r := if i == |s| then [] else s[i..j];
      && Stripped(r)
      && (r == [] <==> AllWhitespace(s))
      && (Stripped(s) ==> r == s)
  {
    if i < |s| {
      assert !IsJsWhitespace(s[i]);
      if Stripped(s) {
        assert i == 0 && j == |s|;
        assert s[0..|s|] == s;
      }
    }
  }

  /** `s` is its text before `i`, the part `r` from `i` to `e`, and the text
      from `e` on; that last text is whitespace when `s` is whitespace from
      `e` on. */
  lemma Pieces(s: string, i: nat, e: nat, r: string)
    requires i <= e <= |s| && r == s[i..e]
    requires forall k :: e <= k < |s| ==> IsJsWhitespace(s[k])
    ensures i + |r| == e
    ensures s == s[..i] + r + s[i + |r|..]
    ensures AllWhitespace(s[i + |r|..])
  {
    assert s == s[..i] + s[i..e] + s[e..];
    assert forall k :: 0 <= k < |s[e..]| ==> s[e..][k] == s[e + k];
  }

  /** What `trimStr` computes: the JavaScript trim, then every run of spaces
      collapsed to one space. Only spaces are dropped from the trimmed text:
      tabs, newlines and every other character stay, in order. */
  function TrimmedString(s: string): (r: string)
    ensures Without(r, ' ') == Without(JsTrim(s), ' ')
    ensures |r| <= |JsTrim(s)|
  {
    CollapseKeepsOtherChars(JsTrim(s), ' ');
    CollapseRuns(JsTrim(s), ' ')
  }

  /** A trimmed string has no whitespace at either end and no two adjacent
      spaces; it is empty exactly when the input is all whitespace. */
  lemma TrimmedStringShape(s: string)
    ensures Stripped(TrimmedString(s))
    ensures NoPair(TrimmedString(s), ' ')
    ensures TrimmedString(s) == [] <==> AllWhitespace(s)
  {
  }

  /** Trimming a trimmed string changes nothing. */
  lemma TrimmedStringIdempotent(s: string)
    ensures TrimmedString(TrimmedString(s)) == TrimmedString(s)
  {
    var t := TrimmedString(s);
    TrimmedStringShape(s);
    CollapseNoPair(t, ' ');
  }

  /** `trimStr`: the builtin trim, then `"  "` replaced by `" "` (first
      occurrence each time) until no `"  "` is left. */
  method TrimStr(str: string) returns (r: string)
    ensures r == TrimmedString(str)
  {
    if str == "" {
      return "";
    }
    var t := JsTrim(str);
    if t == "" {
      return "";
    }
    while Contains(t, "  ")
      invariant CollapseRuns(t, ' ') == TrimmedString(str)
      decreases |t|
    {
      ReplacePairStep(t);
      t := ReplaceFirst(t, "  ", " ");
    }
    NoDoubleSpaceCollapsed(t);
    r := t;
  }

  /** Replacing the first double space by one space shortens the string and
      leaves its collapsed form unchanged. */
  lemma ReplacePairStep(t: string)
    requires Contains(t, "  ")
    ensures |ReplaceFirst(t, "  ", " ")| < |t|
    ensures CollapseRuns(ReplaceFirst(t, "  ", " "), ' ') == CollapseRuns(t, ' ')
  {
    var i := IndexOf(t, "  ").value;
    assert t == t[..i] + [' ', ' '] + t[i + 2..] by {
      assert t[i..i + 2] == "  ";
    }
    CollapseDropsOneOfPair(t[..i], t[i + 2..], ' ');
  }

  /** A string without a double space is its own collapsed form. */
  lemma NoDoubleSpaceCollapsed(t: string)
    requires !Contains(t, "  ")
    ensures CollapseRuns(t, ' ') == t
  {
    forall i | 0 <= i < |t| - 1 ensures !(t[i] == ' ' && t[i + 1] == ' ') {
      if t[i] == ' ' && t[i + 1] == ' ' {
        assert t[i..i + 2] == "  ";
        ContainsAt(t, "  ", i);
      }
    }
    CollapseNoPair(t, ' ');
  }

  /** What `trimData` computes. A nested `Date` has no own enumerable keys,
      so it becomes `{}`. */
  function TrimValue(v: Value): (r: Value)
    ensures v.Str? ==> r == (if TrimmedString(v.s) == [] then Null else Str(TrimmedString(v.s)))
    ensures v.Str? ==> (r == Null <==> AllWhitespace(v.s))
    ensures v.Str? && r != Null ==> r.Str? && Stripped(r.s) && NoPair(r.s, ' ') && r.s != ""
    ensures v.Arr? ==> r.Arr? && |r.items| == |v.items|
    ensures v.Obj? ==> r.Obj? && |r.fields| == |v.fields|
    ensures v.Undefined? || v.Null? || v.Bool? || v.Num? ==> r == v
    ensures r == Undefined <==> v == Undefined
    ensures !r.Date?
  {
    match v
    case Str(s) =>
      TrimmedStringShape(s);
      var t := TrimmedString(s);
      if t == "" then Null else Str(t)
    case Arr(items) => Arr(seq(|items|, i requires 0 <= i < |items| => TrimValue(items[i])))
    case Obj(fields) =>
      Obj(seq(|fields|, i requires 0 <= i < |fields| => (fields[i].0, TrimValue(fields[i].1))))
    case Date(_) => Obj([])
    case _ => v
  }

  /** An array keeps every element at its position, trimmed. */
  lemma TrimArrayInPlace(items: seq<Value>, i: int)
    requires 0 <= i < |items|
    ensures TrimValue(Arr(items)).items[i] == TrimValue(items[i])
  {
  }

  /** An object keeps its keys, in order. */
  lemma TrimObjectKeys(fields: Dict<Value>)
    ensures Keys(TrimValue(Obj(fields)).fields) == Keys(fields)
  {
    var r := TrimValue(Obj(fields)).fields;
    assert forall i :: 0 <= i < |fields| ==> r[i].0 == fields[i].0;
  }

  /** An object keeps every key, with its value trimmed. */
  lemma TrimObjectValues(fields: Dict<Value>, k: string)
    ensures Get(TrimValue(Obj(fields)).fields, k) ==
      match Get(fields, k) case None => None case Some(v) => Some(TrimValue(v))
  {
    var r := TrimValue(Obj(fields)).fields;
    if fields != [] {
      var rest := TrimValue(Obj(fields[1..])).fields;
      assert r == [(fields[0].0, TrimValue(fields[0].1))] + rest;
      TrimObjectValues(fields[1..], k);
    }
  }

  /** `trimData` applied to its own output returns it unchanged. */
  lemma {:induction false} TrimIdempotent(v: Value)
    ensures TrimValue(TrimValue(v)) == TrimValue(v)
    decreases v
  {
    match v
    case Str(s) =>
      TrimmedStringIdempotent(s);
    case Arr(items) =>
      var once := TrimValue(v).items;
      forall i | 0 <= i < |items| ensures TrimValue(once[i]) == once[i] {
        TrimIdempotent(items[i]);
      }
      TrimFixedElements(once);
    case Obj(fields) =>
      var once := TrimValue(v).fields;
      forall i | 0 <= i < |fields| ensures TrimValue(once[i].1) == once[i].1 {
        TrimIdempotent(fields[i].1);
      }
      TrimFixedEntries(once);
    case _ =>
  }

  /** An array whose elements are all unchanged by trimming is unchanged. */
  lemma TrimFixedElements(items: seq<Value>)
    requires forall i :: 0 <= i < |items| ==> TrimValue(items[i]) == items[i]
    ensures TrimValue(Arr(items)) == Arr(items)
  {
    assert TrimValue(Arr(items)).items == items;
  }

  /** An object whose values are all unchanged by trimming is unchanged. */
  lemma TrimFixedEntries(fields: Dict<Value>)
    requires forall i :: 0 <= i < |fields| ==> TrimValue(fields[i].1) == fields[i].1
    ensures TrimValue(Obj(fields)) == Obj(fields)
  {
    assert TrimValue(Obj(fields)).fields == fields;
  }

  /** `trimData`: a recursive copy that pushes trimmed elements onto a new
      array or writes trimmed values onto a new object. Each key of the
      source is written once, so every write adds an entry at the end. */
  method TrimData(data: Value) returns (result: Value)
    ensures result == TrimValue(data)
    decreases data, 1
  {
    match data {
      case Str(s) =>
        var t := TrimStr(s);
        result := if t == "" then Null else Str(t);
      case Arr(_) =>
        result := TrimElements(data);
      case Obj(_) =>
        result := TrimEntries(data);
      case Date(_) =>
        result := Obj([]);
      case _ =>
        result := data;
    }
  }

  /** The array branch of `trimData`: each trimmed element is pushed in
      order. */
  method TrimElements(data: Value) returns (result: Value)
    requires data.Arr?
    ensures result == TrimValue(data)
    decreases data, 0
  {
    var items := data.items;
    var out: seq<Value> := [];
    for i := 0 to |items|
      invariant |out| == i
      invariant forall k :: 0 <= k < i ==> out[k] == TrimValue(items[k])
    {
      var t := TrimData(items[i]);
      ElementsStep(items, out, i, t);
      out := out + [t];
    }
    TrimmedElements(items, out);
    result := Arr(out);
  }

  /** The object branch of `trimData`: each key is written once, with its
      trimmed value, in order. */
  method TrimEntries(data: Value) returns (result: Value)
    requires data.Obj?
    ensures result == TrimValue(data)
    decreases data, 0
  {
    var fields := data.fields;
    var out: Dict<Value> := [];
    for i := 0 to |fields|
      invariant |out| == i
      invariant forall k :: 0 <= k < i ==> out[k] == (fields[k].0, TrimValue(fields[k].1))
    {
      var t := TrimData(fields[i].1);
      EntriesStep(fields, out, i, t);
      out := out + [(fields[i].0, t)];
    }
    TrimmedEntries(fields, out);
    result := Obj(out);
  }

  /** One turn of the object branch: the entry written is the next entry of
      the trimmed object. */
  lemma EntriesStep(fields: Dict<Value>, out: Dict<Value>, i: int, t: Value)
    requires 0 <= i < |fields| && |out| == i && t == TrimValue(fields[i].1)
    requires forall k :: 0 <= k < i ==> out[k] == (fields[k].0, TrimValue(fields[k].1))
    ensures var next := out + [(fields[i].0, t)];
      |next| == i + 1 && forall k :: 0 <= k < i + 1 ==> next[k] == (fields[k].0, TrimValue(fields[k].1))
  {
    var next := out + [(fields[i].0, t)];
    forall k | 0 <= k < i + 1 ensures next[k] == (fields[k].0, TrimValue(fields[k].1)) {
      if k < i {
        assert next[k] == out[k];
      } else {
        assert next[k] == (fields[i].0, t);
      }
    }
  }

  /** One turn of the array branch: the element pushed is the next element
      of the trimmed array. */
  lemma ElementsStep(items: seq<Value>, out: seq<Value>, i: int, t: Value)
    requires 0 <= i < |items| && |out| == i && t == TrimValue(items[i])
    requires forall k :: 0 <= k < i ==> out[k] == TrimValue(items[k])
    ensures var next := out + [t];
      |next| == i + 1 && forall k :: 0 <= k < i + 1 ==> next[k] == TrimValue(items[k])
  {
  }

  /** Entries that are the object's own entries with their values trimmed,
      one by one, are the entries of the trimmed object. */
  lemma TrimmedEntries(fields: Dict<Value>, out: Dict<Value>)
    requires |out| == |fields|
    requires forall k :: 0 <= k < |fields| ==> out[k] == (fields[k].0, TrimValue(fields[k].1))
    ensures out == TrimValue(Obj(fields)).fields
  {
  }

  /** Elements that are the array's own elements trimmed, one by one, are
      the elements of the trimmed array. */
  lemma TrimmedElements(items: seq<Value>, out: seq<Value>)
    requires |out| == |items|
    requires forall k :: 0 <= k < |items| ==> out[k] == TrimValue(items[k])
    ensures out == TrimValue(Arr(items)).items
  {
  }
}
