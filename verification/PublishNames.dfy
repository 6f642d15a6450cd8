/** The names of published issues in `src/publish.rs`. */
module PublishNames {
  import opened Text
  import opened Dates

  const FILE_PREFIX := "The Daily EPUB - "
  const X4_SUFFIX := " (X4)"

  datatype Edition = Standard | X4 {
    function Suffix(): string { if X4? then X4_SUFFIX else "" }
  }

  predicate IsXtcExtension(e: string) { e == "xtc" || e == "xtch" }
  predicate IsPrunable(e: string) { e == "epub" || IsXtcExtension(e) }

  /** `issue_filename`. */
  function IssueName(date: Date, edition: Edition, extension: string): string
    requires date.Valid()
  {
    FILE_PREFIX + (date.Print() + (edition.Suffix() + "." + extension))
  }

  /** What stands behind the last dot, and what in front of it. */
  function SplitAtLastDot(name: string): Option<(string, string)> {
    if name == "" then None
    else
      var k := |name| - 1;
      if name[k] == '.' then Some((name[..k], ""))
      else match SplitAtLastDot(name[..k]) case Some((stem, e)) => Some((stem, e + [name[k]])) case None => None
  }

  /** `Path::extension`, lower-cased: a dot in front makes no extension. */
  function Extension(name: string): Option<string> {
    match SplitAtLastDot(name) case Some((stem, e)) => if stem == "" then None else Some(LowerAll(e)) case None => None
  }

  /** `Path::file_stem`. */
  function Stem(name: string): string {
    match SplitAtLastDot(name) case Some((stem, _)) => if stem == "" then name else stem case None => name
  }

  /** `date_from_filename`: none if the name is not one of ours. */
  function DateOf(name: string, read: Reader): Option<Date> {
    if !(FILE_PREFIX <= name) || Extension(name).None? || !IsPrunable(Extension(name).value) then None
    else match BytePrefix(name[|FILE_PREFIX|..], 10) case Some(t) => read(t) case None => None
  }

  function EditionOf(name: string): Edition { if EndsWith(Stem(name), X4_SUFFIX) then X4 else Standard }

  lemma {:induction false} LastDotIs(stem: string, e: string)
    requires '.' !in e
    ensures SplitAtLastDot(stem + "." + e) == Some((stem, e))
  {
    var name := stem + "." + e;
    var k := |name| - 1;
    if e == "" {
      assert name[..k] == stem && name[k] == '.';
    } else {
      assert name[k] == e[|e| - 1] && e[|e| - 1] in e;
      LastDotIs(stem, e[..|e| - 1]);
      assert name[..k] == stem + "." + e[..|e| - 1];
      assert e == e[..|e| - 1] + [e[|e| - 1]];
    }
  }

  lemma {:induction false} BytePrefixOfAscii(a: string, b: string)
    requires forall i :: 0 <= i < |a| ==> IsDigit(a[i]) || a[i] == '-'
    ensures BytePrefix(a + b, |a|) == Some(a)
  {
    if a != "" {
      assert (a + b)[1..] == a[1..] + b && a == [a[0]] + a[1..];
      assert Utf8Len(a[0]) == 1;
      BytePrefixOfAscii(a[1..], b);
    }
  }

  /** A published name reads back: its date, its edition and its extension. */
  lemma NameReadsBack(date: Date, edition: Edition, extension: string, read: Reader)
    requires date.Valid() && date.year >= 0 && IsPrunable(extension) && Faithful(read)
    ensures var name := IssueName(date, edition, extension);
            DateOf(name, read) == Some(date) && EditionOf(name) == edition && Extension(name) == Some(extension)
  {
    var d, suffix := date.Print(), edition.Suffix();
    var name := IssueName(date, edition, extension);
    var stem := FILE_PREFIX + (d + suffix);
    var tail := suffix + "." + extension;
    assert name == stem + "." + extension;
    PrunableIsPlain(extension);
    LastDotIs(stem, extension);
    assert name[|FILE_PREFIX|..] == d + tail;
    BytePrefixOfAscii(d, tail);
    StemTellsEdition(d, edition);
  }

  lemma PrunableIsPlain(extension: string)
    requires IsPrunable(extension)
    ensures '.' !in extension && LowerAll(extension) == extension
  {
    assert LowerAll("epub") == "epub" && LowerAll("xtc") == "xtc" && LowerAll("xtch") == "xtch";
  }

  lemma StemTellsEdition(d: string, edition: Edition)
    requires d != "" && (IsDigit(d[|d| - 1]) || d[|d| - 1] == '-')
    ensures EndsWith(FILE_PREFIX + (d + edition.Suffix()), X4_SUFFIX) <==> edition == X4
  {
    var stem := FILE_PREFIX + (d + edition.Suffix());
    if edition == X4 {
      assert stem[|stem| - |X4_SUFFIX|..] == X4_SUFFIX;
    } else {
      assert stem[|stem| - 1] == d[|d| - 1];
      assert stem[|stem| - |X4_SUFFIX|..][|X4_SUFFIX| - 1] == d[|d| - 1] && X4_SUFFIX[4] == ')';
    }
  }

  /** No two issues share a name. */
  lemma NamesAreDistinct(a: Date, b: Date, e: Edition, f: Edition, x: string, y: string, read: Reader)
    requires a.Valid() && b.Valid() && IsPrunable(x) && IsPrunable(y) && Faithful(read)
    ensures IssueName(a, e, x) == IssueName(b, f, y) <==> a == b && e == f && x == y
  {
    if IssueName(a, e, x) == IssueName(b, f, y) {
      NameParts(a, e, x);
      NameParts(b, f, y);
      DatePartsDiffer(a.Print(), e, b.Print(), f);
      assert read(a.Print()) == Some(a) && read(b.Print()) == Some(b);
    }
  }

  lemma NameParts(date: Date, edition: Edition, extension: string)
    requires date.Valid() && IsPrunable(extension)
    ensures SplitAtLastDot(IssueName(date, edition, extension))
         == Some((FILE_PREFIX + (date.Print() + edition.Suffix()), extension))
  {
    var stem := FILE_PREFIX + (date.Print() + edition.Suffix());
    PrunableIsPlain(extension);
    LastDotIs(stem, extension);
    assert IssueName(date, edition, extension) == stem + "." + extension;
  }

  /** The date and the edition can be told from their text, because no two lengths agree. */
  lemma DatePartsDiffer(d: string, e: Edition, c: string, f: Edition)
    requires (|d| == 10 || |d| == 13) && (|c| == 10 || |c| == 13)
    requires FILE_PREFIX + (d + e.Suffix()) == FILE_PREFIX + (c + f.Suffix())
    ensures d == c && e == f
  {
    var s, t := d + e.Suffix(), c + f.Suffix();
    assert s == (FILE_PREFIX + s)[|FILE_PREFIX|..] == (FILE_PREFIX + t)[|FILE_PREFIX|..] == t;
    assert |s| == |d| + (if e == X4 then 5 else 0) && |t| == |c| + if f == X4 then 5 else 0;
    assert d == s[..|d|] && c == t[..|c|];
  }
}
