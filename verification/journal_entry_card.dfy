/** The journal entry card: the content preview it shows and the Markdown
    file it exports (text and file name). */
module JournalEntryCard {
  import opened Common

  /** The default length of a preview. */
  const PreviewLength: nat := 150

  /** `getContentPreview`: short text unchanged, long text cut to `maxLength`
      characters followed by "...". */
  function ContentPreview(text: string, maxLength: nat): (r: string)
    ensures |text| <= maxLength ==> r == text
    ensures |text| > maxLength ==> |r| == maxLength + 3 && r[..maxLength] == text[..maxLength]
                                   && r[maxLength..] == "..."
  {
    if |text| <= maxLength then text else text[..maxLength] + "..."
  }

  /** A preview never exceeds `maxLength` plus the ellipsis, and it starts
      with as much of the text as fits. */
  lemma PreviewBounds(text: string, maxLength: nat)
    ensures |ContentPreview(text, maxLength)| <= maxLength + 3
    ensures |ContentPreview(text, maxLength)| >= (if |text| < maxLength then |text| else maxLength)
    ensures forall k :: 0 <= k <= maxLength && k <= |text| ==> ContentPreview(text, maxLength)[..k] == text[..k]
  {
  }

  /** `Array.prototype.join`. */
  function Join(parts: seq<string>, sep: string): (r: string)
    ensures |parts| > 0 ==> parts[0] <= r
    ensures |parts| > 0 ==> |parts[|parts| - 1]| <= |r| && r[|r| - |parts[|parts| - 1]|..] == parts[|parts| - 1]
    decreases |parts|
  {
    if |parts| == 0 then ""
    else if |parts| == 1 then parts[0]
    else Join(parts[..|parts| - 1], sep) + sep + parts[|parts| - 1]
  }

  function TotalLength(parts: seq<string>): nat
    decreases |parts|
  {
    if parts == [] then 0 else TotalLength(parts[..|parts| - 1]) + |parts[|parts| - 1]|
  }

  /** A join is as long as its parts together plus one separator between
      each two. */
  lemma {:induction false} JoinLength(parts: seq<string>, sep: string)
    ensures |parts| > 0 ==> |Join(parts, sep)| == TotalLength(parts) + (|parts| - 1) * |sep|
    ensures |parts| == 0 ==> Join(parts, sep) == ""
    decreases |parts|
  {
    if |parts| > 1 {
      var n := |parts|;
      var init := parts[..n - 1];
      JoinLength(init, sep);
      var j := Join(init, sep);
      assert |j| == TotalLength(init) + (n - 2) * |sep|;
      assert Join(parts, sep) == j + sep + parts[n - 1];
      assert TotalLength(parts) == TotalLength(init) + |parts[n - 1]|;
      assert (n - 2) * |sep| + |sep| == (n - 1) * |sep| by {
        MulSucc(n - 2, |sep|);
      }
    }
  }

  /** How a join grows: one part is the part itself, and each further part
      comes after one more separator. */
  lemma JoinSteps(parts: seq<string>, p: string, sep: string)
    ensures Join([p], sep) == p
    ensures |parts| > 0 ==> Join(parts + [p], sep) == Join(parts, sep) + sep + p
  {
    if |parts| > 0 {
      assert (parts + [p])[..|parts|] == parts;
    }
  }

  /** Joining the first parts is a prefix of joining them all. */
  lemma {:induction false} JoinPrefix(parts: seq<string>, sep: string, k: nat)
    requires 0 < k <= |parts|
    ensures Join(parts[..k], sep) <= Join(parts, sep)
    decreases |parts|
  {
    if k < |parts| {
      var init := parts[..|parts| - 1];
      assert init[..k] == parts[..k];
      JoinPrefix(init, sep, k);
    } else {
      assert parts[..k] == parts;
    }
  }

  /** The exported Markdown: a heading with the title, the long date, the
      tags joined with ", ", a blank line and the content. The date is
      passed already formatted. */
  function ExportText(title: string, longDate: string, tags: seq<string>, content: string): (r: string)
    ensures "# " + title + "\n" <= r
    ensures |r| >= |content| + 2 && r[|r| - |content| - 2..] == "\n\n" + content
  {
    var header := "# " + title + "\nDate: " + longDate + "\nTags: " + Join(tags, ", ");
    assert ("# " + title + "\n") <= header;
    header + "\n\n" + content
  }

  /** The export lists exactly the entry's tags: the text between "Tags: "
      and the blank line is their join. */
  lemma ExportHasTagLine(title: string, longDate: string, tags: seq<string>, content: string)
    ensures var head := "# " + title + "\nDate: " + longDate + "\nTags: ";
            head <= ExportText(title, longDate, tags, content) &&
            ExportText(title, longDate, tags, content)[|head|..] == Join(tags, ", ") + "\n\n" + content
  {
    var head := "# " + title + "\nDate: " + longDate + "\nTags: ";
    var r := ExportText(title, longDate, tags, content);
    assert r == head + (Join(tags, ", ") + "\n\n" + content);
  }

  /** `replace(/\s+/g, "-")`: each run of whitespace becomes one hyphen. */
  function Hyphenate(s: string): (r: string)
    ensures forall i :: 0 <= i < |r| ==> !IsSpace(r[i])
    ensures |r| <= |s|
    ensures s != [] ==> r != [] && r[0] == (if IsSpace(s[0]) then '-' else s[0])
    decreases |s|
  {
    if s == [] then []
    else
      var c := if IsSpace(s[0]) then '-' else s[0];
      var t := Hyphenate(if IsSpace(s[0]) then TrimStart(s[1..]) else s[1..]);
      ConsNoSpace(c, t);
      [c] + t
  }

  /** Putting a non-space character in front of text without whitespace
      gives text without whitespace. */
  lemma ConsNoSpace(c: char, t: string)
    requires !IsSpace(c) && forall i :: 0 <= i < |t| ==> !IsSpace(t[i])
    ensures forall i :: 0 <= i < |t| + 1 ==> !IsSpace(([c] + t)[i])
  {
    forall i | 0 <= i < |t| + 1 ensures !IsSpace(([c] + t)[i]) {
      if i > 0 {
        assert ([c] + t)[i] == t[i - 1];
      }
    }
  }

  /** Text without whitespace passes through unchanged. */
  lemma {:induction false} HyphenateNoSpace(s: string)
    requires forall i :: 0 <= i < |s| ==> !IsSpace(s[i])
    ensures Hyphenate(s) == s
    decreases |s|
  {
    if s != [] {
      HyphenateNoSpace(s[1..]);
    }
  }

  /** One step of `Hyphenate`: a non-space character is kept, a
      whitespace character and the whitespace after it become one hyphen. */
  lemma HyphenateCons(s: string)
    requires s != []
    ensures !IsSpace(s[0]) ==> Hyphenate(s) == [s[0]] + Hyphenate(s[1..])
    ensures IsSpace(s[0]) ==> Hyphenate(s) == "-" + Hyphenate(TrimStart(s[1..]))
  {
  }

  /** A run made only of whitespace becomes a single hyphen. */
  lemma HyphenateSpaceRun(w: string)
    requires w != [] && forall i :: 0 <= i < |w| ==> IsSpace(w[i])
    ensures Hyphenate(w) == "-"
  {
    HyphenateCons(w);
    assert TrimStart(w[1..]) == [];
  }

  /** Hyphenating works piece by piece wherever the cut does not split a
      whitespace run: when the first piece is empty or ends in a
      non-space, or the second starts with a non-space. With
      `HyphenateSpaceRun` and `HyphenateNoSpace` this fixes the result for
      every text: each maximal whitespace run becomes one hyphen and every
      other character is kept in place. */
  lemma {:induction false} HyphenateAppend(a: string, b: string)
    requires a == [] || !IsSpace(a[|a| - 1]) || (b != [] && !IsSpace(b[0]))
    ensures Hyphenate(a + b) == Hyphenate(a) + Hyphenate(b)
    decreases |a|, 1
  {
    if a == [] {
      assert a + b == b;
    } else {
      HyphenateConsAppend(a, b);
      HyphenateCons(a);
      if !IsSpace(a[0]) {
        assert a[1..] == [] || a[1..][|a| - 2] == a[|a| - 1];
        HyphenateAppend(a[1..], b);
        ConcatAssoc([a[0]], Hyphenate(a[1..]), Hyphenate(b));
      } else {
        HyphenateAppendSpaceHead(a, b);
        ConcatAssoc("-", Hyphenate(TrimStart(a[1..])), Hyphenate(b));
      }
    }
  }

  /** `HyphenateCons` for a text cut in two after its first character. */
  lemma HyphenateConsAppend(a: string, b: string)
    requires a != []
    ensures !IsSpace(a[0]) ==> Hyphenate(a + b) == [a[0]] + Hyphenate(a[1..] + b)
    ensures IsSpace(a[0]) ==> Hyphenate(a + b) == "-" + Hyphenate(TrimStart(a[1..] + b))
  {
    assert (a + b)[0] == a[0] && (a + b)[1..] == a[1..] + b;
    HyphenateCons(a + b);
  }

  lemma ConcatAssoc(x: string, y: string, z: string)
    ensures x + (y + z) == (x + y) + z
  {
  }

  /** The case of `HyphenateAppend` where the first piece starts with
      whitespace: the run is trimmed, then the rest is split again. */
  lemma {:induction false} HyphenateAppendSpaceHead(a: string, b: string)
    requires a != [] && IsSpace(a[0])
    requires !IsSpace(a[|a| - 1]) || (b != [] && !IsSpace(b[0]))
    ensures Hyphenate(TrimStart(a[1..] + b)) == Hyphenate(TrimStart(a[1..])) + Hyphenate(b)
    decreases |a|, 0
  {
    var x := a[1..];
    if k :| 0 <= k < |x| && !IsSpace(x[k]) {
      TrimStartKeepsTail(x, b, k);
      TrimStartKeepsLast(x, k);
      assert x[|x| - 1] == a[|a| - 1];
      HyphenateAppend(TrimStart(x), b);
    } else {
      SpaceHeadRun(a, b);
    }
  }

  /** A first piece made only of whitespace is trimmed away, and then the
      second piece starts with a non-space. */
  lemma SpaceHeadRun(a: string, b: string)
    requires a != [] && forall i :: 0 <= i < |a| ==> IsSpace(a[i])
    requires !IsSpace(a[|a| - 1]) || (b != [] && !IsSpace(b[0]))
    ensures TrimStart(a[1..] + b) == b && TrimStart(a[1..]) == []
  {
    TrimStartSpacePrefix(a[1..], b);
    assert TrimStart(b) == b;
  }

  /** Worked example, not a general claim: the title "My  day", with a
      double space, becomes "My-day". The literals are parameters fixed by
      the precondition. */
  lemma HyphenateExample(head: string, run: string, tail: string)
    requires head == "My" && run == "  " && tail == "day"
    ensures Hyphenate(head + run + tail) == head + "-" + tail
  {
    assert head + run + tail == head + (run + tail);
    HyphenateNoSpace(head);
    HyphenateNoSpace(tail);
    HyphenateSpaceRun(run);
    HyphenateAppend(run, tail);
    HyphenateAppend(head, run + tail);
    ConcatAssoc(head, "-", tail);
  }

  /** A whitespace run never yields two hyphens in a row: in text without
      hyphens of its own, the result has no "--". */
  lemma {:induction false} HyphenateNoDoubleHyphen(s: string)
    requires forall i :: 0 <= i < |s| ==> s[i] != '-'
    ensures forall i :: 0 <= i < |Hyphenate(s)| - 1 ==> !(Hyphenate(s)[i] == '-' && Hyphenate(s)[i + 1] == '-')
    decreases |s|
  {
    if s != [] {
      var r := Hyphenate(s);
      var rest := if IsSpace(s[0]) then TrimStart(s[1..]) else s[1..];
      forall i | 0 <= i < |rest| ensures rest[i] != '-' {
        assert rest[i] == s[|s| - |rest| + i];
      }
      HyphenateNoDoubleHyphen(rest);
      var t := Hyphenate(rest);
      assert r == [r[0]] + t;
      forall i | 0 <= i < |r| - 1 ensures !(r[i] == '-' && r[i + 1] == '-') {
        if i == 0 {
          assert r[1] == t[0];
          if IsSpace(s[0]) {
            assert rest == [] || !IsSpace(rest[0]);
          }
        } else {
          assert r[i] == t[i - 1] && r[i + 1] == t[i];
        }
      }
    }
  }

  /** The download name: `yyyy-MM-dd` (passed formatted), a hyphen, the
      lower-cased title with whitespace runs turned into hyphens, ".md". */
  function FileName(isoDay: string, title: string): (r: string)
    ensures r == isoDay + "-" + Hyphenate(Lower(title)) + ".md"
    ensures isoDay + "-" <= r
    ensures |r| >= 3 && r[|r| - 3..] == ".md"
  {
    var name := isoDay + "-" + Hyphenate(Lower(title));
    assert isoDay + "-" <= name;
    name + ".md"
  }

  /** The part of the name taken from the title holds no whitespace and no
      capital letter, and a title that is already lower case without
      whitespace is used as it is. */
  lemma FileNameSlug(isoDay: string, title: string)
    ensures var slug := FileName(isoDay, title)[|isoDay| + 1..|FileName(isoDay, title)| - 3];
            (forall i :: 0 <= i < |slug| ==> !IsSpace(slug[i]) && !('A' <= slug[i] <= 'Z')) &&
            ((forall i :: 0 <= i < |title| ==> !IsSpace(title[i]) && !('A' <= title[i] <= 'Z')) ==> slug == title)
  {
    var h := Hyphenate(Lower(title));
    var r := FileName(isoDay, title);
    assert r == isoDay + "-" + h + ".md";
    assert r[|isoDay| + 1..|r| - 3] == h;
    HyphenateKeepsLower(Lower(title));
    if forall i :: 0 <= i < |title| ==> !IsSpace(title[i]) && !('A' <= title[i] <= 'Z') {
      assert Lower(title) == title;
      HyphenateNoSpace(title);
    }
  }

  /** Hyphenating introduces no capital letter. */
  lemma {:induction false} HyphenateKeepsLower(s: string)
    requires forall i :: 0 <= i < |s| ==> !('A' <= s[i] <= 'Z')
    ensures forall i :: 0 <= i < |Hyphenate(s)| ==> !('A' <= Hyphenate(s)[i] <= 'Z')
    decreases |s|
  {
    if s != [] {
      var r := Hyphenate(s);
      var rest := if IsSpace(s[0]) then TrimStart(s[1..]) else s[1..];
      forall i | 0 <= i < |rest| ensures !('A' <= rest[i] <= 'Z') {
        assert rest[i] == s[|s| - |rest| + i];
      }
      HyphenateKeepsLower(rest);
      var t := Hyphenate(rest);
      assert r == [r[0]] + t;
      forall i | 0 <= i < |r| ensures !('A' <= r[i] <= 'Z') {
        if i > 0 {
          assert r[i] == t[i - 1];
        }
      }
    }
  }
}
