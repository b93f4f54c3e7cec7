/** Splitting text at a separator character and joining it again. */
module Text {
  /** `text.split(sep)`. */
  function SplitAt(text: string, sep: char): (parts: seq<string>)
    ensures parts != []
  {
    if text == "" then [""]
    else
      var rest := SplitAt(text[1..], sep);
      if text[0] == sep then [""] + rest else [[text[0]] + rest[0]] + rest[1..]
  }

  /** `sep.join(parts)`. */
  function JoinWith(parts: seq<string>, sep: char): string {
    if parts == [] then ""
    else if |parts| == 1 then parts[0]
    else parts[0] + [sep] + JoinWith(parts[1..], sep)
  }

  lemma ConcatAssociates<T>(a: seq<T>, b: seq<T>, c: seq<T>)
    ensures a + (b + c) == (a + b) + c
  {
  }

  lemma {:induction false} JoinSplit(text: string, sep: char)
    ensures JoinWith(SplitAt(text, sep), sep) == text
  {
    if text == "" {
    } else {
      JoinSplit(text[1..], sep);
      var rest := SplitAt(text[1..], sep);
      if text[0] == sep {
        assert SplitAt(text, sep)[1..] == rest;
      } else if |rest| > 1 {
        assert SplitAt(text, sep)[1..] == rest[1..];
        assert JoinWith(rest, sep) == rest[0] + [sep] + JoinWith(rest[1..], sep);
      }
    }
  }

  lemma {:induction false} SplitOne(text: string, sep: char)
    requires sep !in text
    ensures SplitAt(text, sep) == [text]
  {
    if text == "" {
    } else {
      SplitOne(text[1..], sep);
      assert [text[0]] + text[1..] == text;
    }
  }

  /** A part without the separator is split off whole. */
  lemma {:induction false} SplitFirst(part: string, sep: char, rest: string)
    requires sep !in part
    ensures SplitAt(part + [sep] + rest, sep) == [part] + SplitAt(rest, sep)
  {
    var text := part + [sep] + rest;
    if part == "" {
      assert text[1..] == rest;
    } else {
      SplitFirst(part[1..], sep, rest);
      assert text[1..] == part[1..] + [sep] + rest;
      assert ([part[1..]] + SplitAt(rest, sep))[1..] == SplitAt(rest, sep);
      assert [part[0]] + part[1..] == part;
    }
  }

  predicate StandsAt(text: string, part: string, off: nat) {
    off + |part| <= |text| && text[off..off + |part|] == part
  }

  lemma OneFurther(text: string, part: string, off: nat)
    requires text != "" && StandsAt(text[1..], part, off)
    ensures StandsAt(text, part, off + 1)
  {
    assert text[1..][off..off + |part|] == text[off + 1..off + 1 + |part|];
  }

  /** The first part stands at the beginning of the text. */
  lemma {:induction false} FirstIsInText(text: string, sep: char)
    ensures StandsAt(text, SplitAt(text, sep)[0], 0)
  {
    if text != "" && text[0] != sep {
      FirstIsInText(text[1..], sep);
      var part := SplitAt(text[1..], sep)[0];
      OneFurther(text, part, 0);
      assert text[0..0 + |[text[0]] + part|] == [text[0]] + text[1..1 + |part|];
    }
  }

  /** Every part stands in the text as it is. */
  lemma {:induction false} PartIsInText(text: string, sep: char, k: nat) returns (off: nat)
    requires k < |SplitAt(text, sep)|
    ensures StandsAt(text, SplitAt(text, sep)[k], off)
  {
    if k == 0 {
      FirstIsInText(text, sep);
      off := 0;
    } else {
      var o := PartIsInText(text[1..], sep, if text[0] == sep then k - 1 else k);
      OneFurther(text, SplitAt(text, sep)[k], o);
      off := o + 1;
    }
  }

  /** Splitting what was joined gives the parts back, if none holds the separator. */
  lemma {:induction false} SplitJoined(parts: seq<string>, sep: char)
    requires parts != [] && forall i :: 0 <= i < |parts| ==> sep !in parts[i]
    ensures SplitAt(JoinWith(parts, sep), sep) == parts
  {
    if |parts| == 1 {
      SplitOne(parts[0], sep);
    } else {
      SplitFirst(parts[0], sep, JoinWith(parts[1..], sep));
      SplitJoined(parts[1..], sep);
    }
  }
}
