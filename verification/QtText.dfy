/** The string operations the calibration store leans on: split, section and replace-all. */
module QtText {

  predicate IsDigit(c: char) { '0' <= c <= '9' }

  /** All fields between separators, empty ones included; there is always at least one. */
  function Split(s: string, sep: char): (parts: seq<string>)
    ensures |parts| >= 1
  {
    if s == "" then [""]
    else if s[0] == sep then [""] + Split(s[1..], sep)
    else
      var rest := Split(s[1..], sep);
      [[s[0]] + rest[0]] + rest[1..]
  }

  function Join(parts: seq<string>, sep: char): string
  {
    if parts == [] then "" else if |parts| == 1 then parts[0]
    else parts[0] + [sep] + Join(parts[1..], sep)
  }

  /** Fields `first` to `last`, joined again; fields that do not exist are left out. */
  function Section(s: string, sep: char, first: nat, last: nat): string
    requires first <= last
  {
    var parts := Split(s, sep);
    if first >= |parts| then ""
    else Join(parts[first..if last < |parts| then last + 1 else |parts|], sep)
  }

  predicate Free(s: string, sep: char) { sep !in s }

  lemma {:induction false} SplitField(t: string, sep: char, rest: string)
    requires Free(t, sep)
    ensures Split(t + [sep] + rest, sep) == [t] + Split(rest, sep)
  {
    var s := t + [sep] + rest;
    if t == "" {
      assert s[1..] == rest;
    } else {
      assert s[0] == t[0] && s[0] != sep;
      assert s[1..] == t[1..] + [sep] + rest;
      assert forall c :: c in t[1..] ==> c in t;
      SplitField(t[1..], sep, rest);
      assert [s[0]] + t[1..] == t;
    }
  }

  lemma {:induction false} SplitLast(t: string, sep: char)
    requires Free(t, sep)
    ensures Split(t, sep) == [t]
  {
    if t != "" {
      assert forall c :: c in t[1..] ==> c in t;
      SplitLast(t[1..], sep);
      assert [t[0]] + t[1..] == t;
    }
  }

  /** The first field is what stands before the first separator; splitting goes on behind that. */
  lemma {:induction false} FirstField(s: string, sep: char) returns (rest: string)
    requires |Split(s, sep)| > 1
    ensures s == Split(s, sep)[0] + [sep] + rest && Split(rest, sep) == Split(s, sep)[1..]
  {
    if s[0] == sep {
      rest := s[1..];
    } else {
      rest := FirstField(s[1..], sep);
      assert s == [s[0]] + s[1..];
      assert Split(s, sep)[0] == [s[0]] + Split(s[1..], sep)[0];
    }
  }

  lemma {:induction false} FieldsFree(s: string, sep: char, i: nat)
    requires i < |Split(s, sep)|
    ensures Free(Split(s, sep)[i], sep)
  {
    if s != "" {
      if s[0] != sep { FieldsFree(s[1..], sep, i); }
      else if i > 0 { FieldsFree(s[1..], sep, i - 1); }
    }
  }

  lemma {:induction false} FieldWithin(s: string, sep: char, i: nat, c: char)
    requires i < |Split(s, sep)| && c in Split(s, sep)[i]
    ensures c in s
  {
    if s != "" {
      assert s == [s[0]] + s[1..];
      var rest := Split(s[1..], sep);
      if s[0] == sep {
        if i > 0 { FieldWithin(s[1..], sep, i - 1, c); }
      } else if c in rest[i] {
        FieldWithin(s[1..], sep, i, c);
      }
    }
  }

  lemma {:induction false} SplitCount(s: string, sep: char)
    requires sep in s
    ensures |Split(s, sep)| >= 2
  {
    if s[0] != sep {
      assert s == [s[0]] + s[1..];
      SplitCount(s[1..], sep);
    }
  }

  lemma {:induction false} FieldIsPrefix(s: string, sep: char)
    ensures Split(s, sep)[0] <= s
  {
    if s != "" && s[0] != sep { FieldIsPrefix(s[1..], sep); }
  }

  /** Every field followed by its separator, as the calibration texts are written. */
  function Terminated(fields: seq<string>, sep: char): string
  {
    if fields == [] then "" else fields[0] + [sep] + Terminated(fields[1..], sep)
  }

  lemma {:induction false} SplitTerminated(fields: seq<string>, sep: char)
    requires forall f :: f in fields ==> Free(f, sep)
    ensures Split(Terminated(fields, sep), sep) == fields + [""]
  {
    if fields != [] {
      SplitField(fields[0], sep, Terminated(fields[1..], sep));
      SplitTerminated(fields[1..], sep);
    }
  }

  lemma SectionOfParts(s: string, sep: char, parts: seq<string>, i: nat)
    requires Split(s, sep) == parts
    ensures i < |parts| ==> Section(s, sep, i, i) == parts[i]
    ensures i + 1 < |parts| ==> Section(s, sep, i, i + 1) == parts[i] + [sep] + parts[i + 1]
  {
    if i < |parts| {
      assert parts[i..i + 1] == [parts[i]];
      if i + 1 < |parts| {
        assert parts[i..i + 2] == [parts[i], parts[i + 1]];
        assert [parts[i], parts[i + 1]][1..] == [parts[i + 1]];
        assert Join([parts[i], parts[i + 1]], sep) == parts[i] + [sep] + Join([parts[i + 1]], sep);
        assert Join([parts[i + 1]], sep) == parts[i + 1];
      }
    }
  }

  /** Field i of a terminated list is the i-th field, and two neighbouring fields come back joined. */
  lemma SectionTerminated(fields: seq<string>, sep: char, i: nat)
    requires forall f :: f in fields ==> Free(f, sep)
    ensures i < |fields| ==> Section(Terminated(fields, sep), sep, i, i) == fields[i]
    ensures i + 1 < |fields| ==>
              Section(Terminated(fields, sep), sep, i, i + 1) == fields[i] + [sep] + fields[i + 1]
  {
    SplitTerminated(fields, sep);
    SectionOfParts(Terminated(fields, sep), sep, fields + [""], i);
  }

  lemma {:induction false} TerminatedAppend(fields: seq<string>, f: string, sep: char)
    ensures Terminated(fields + [f], sep) == Terminated(fields, sep) + f + [sep]
  {
    if fields != [] {
      assert (fields + [f])[1..] == fields[1..] + [f];
      TerminatedAppend(fields[1..], f, sep);
    } else {
      assert [f][1..] == [];
    }
  }

  // ---------------------------------------------------------------- replace

  function InsertEverywhere(s: string, t: string): string
  {
    if s == "" then t else t + [s[0]] + InsertEverywhere(s[1..], t)
  }

  /** Every occurrence, left to right and without overlaps; an empty pattern occurs everywhere. */
  function ReplaceAll(s: string, before: string, after: string): string
    decreases |s|
  {
    if before == "" then
      if after == "" then s else InsertEverywhere(s, after)
    else if |s| < |before| then s
    else if before <= s then after + ReplaceAll(s[|before|..], before, after)
    else [s[0]] + ReplaceAll(s[1..], before, after)
  }

  ghost predicate OccursAt(s: string, b: string, k: nat)
  {
    k <= |s| && b <= s[k..]
  }

  lemma {:induction false} ReplaceNone(s: string, before: string, after: string)
    requires before != "" && forall k: nat :: !OccursAt(s, before, k)
    ensures ReplaceAll(s, before, after) == s
    decreases |s|
  {
    if |s| >= |before| {
      assert s[0..] == s && !OccursAt(s, before, 0);
      forall k: nat ensures !OccursAt(s[1..], before, k) {
        if k <= |s[1..]| { assert s[1..][k..] == s[k + 1..] && !OccursAt(s, before, k + 1); }
      }
      ReplaceNone(s[1..], before, after);
    }
  }

  /** A pattern that occurs in one place only is replaced there and nowhere else. */
  lemma {:induction false} ReplaceOnce(p: string, before: string, q: string, after: string)
    requires before != ""
    requires forall k: nat :: OccursAt(p + before + q, before, k) ==> k == |p|
    ensures ReplaceAll(p + before + q, before, after) == p + after + q
    decreases |p|
  {
    var s := p + before + q;
    if p == "" {
      assert s[|before|..] == q;
      forall k: nat ensures !OccursAt(q, before, k) {
        if k <= |q| {
          assert s[|before| + k..] == q[k..];
          assert OccursAt(s, before, |before| + k) ==> |before| + k == 0;
        }
      }
      ReplaceNone(q, before, after);
      assert before <= s;
      assert p + after + q == after + q;
    } else {
      assert s[0..] == s && !OccursAt(s, before, 0);
      var t := p[1..] + before + q;
      assert s[1..] == t;
      forall k: nat | OccursAt(t, before, k) ensures k == |p[1..]| {
        assert t[k..] == s[k + 1..];
        assert OccursAt(s, before, k + 1);
      }
      ReplaceOnce(p[1..], before, q, after);
      assert [s[0]] + (p[1..] + after + q) == p + after + q;
    }
  }
}
