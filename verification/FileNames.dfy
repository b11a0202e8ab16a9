// Which file names are indexed as text (vfs crate, davfs.rs).
module FileNames {
  import opened Base

  const DOT: byte := 46

  function LowerByte(b: byte): byte {
    if 65 <= b <= 90 then b + 32 else b
  }

  function Lower(name: seq<byte>): seq<byte> {
    seq(|name|, i requires 0 <= i < |name| => LowerByte(name[i]))
  }

  /** What follows the last dot; the whole name when there is none. */
  function AfterLastDot(name: seq<byte>): seq<byte> {
    if name == [] || Last(name) == DOT then [] else AfterLastDot(Init(name)) + [Last(name)]
  }

  function Ascii(s: string): seq<byte> {
    seq(|s|, i requires 0 <= i < |s| => s[i] as int % 256)
  }

  const TEXT_EXTENSIONS: seq<string> := [
    "md", "markdown", "txt", "text", "log", "rst", "org", "tex", "json", "csv", "tsv", "toml", "yaml", "yml",
    "xml", "ini", "cfg", "conf", "html", "htm", "css", "rs", "py", "js", "ts", "go", "c", "h", "cpp", "hpp",
    "java", "rb", "sh", "sql"]

  predicate IsTextExtension(ext: seq<byte>) {
    exists i :: 0 <= i < |TEXT_EXTENSIONS| && Ascii(TEXT_EXTENSIONS[i]) == ext
  }

  predicate IsIndexableName(name: seq<byte>) {
    var ext := AfterLastDot(Lower(name));
    && name != []
    && name[0] != DOT
    && 0 < |ext| < |name|
    && IsTextExtension(ext)
  }

  /** Letter case never decides whether a name is indexed. */
  lemma CaseDoesNotMatter(a: seq<byte>, b: seq<byte>)
    requires Lower(a) == Lower(b)
    ensures IsIndexableName(a) == IsIndexableName(b)
  {
    assert |a| == |Lower(a)| == |Lower(b)| == |b|;
    if a != [] {
      assert Lower(a)[0] == LowerByte(a[0]) && Lower(b)[0] == LowerByte(b[0]);
    }
  }

  /** A file whose name begins with a dot is never indexed. */
  lemma HiddenIsNotIndexable(rest: seq<byte>)
    ensures !IsIndexableName([DOT] + rest)
  {
  }

  lemma {:induction false} AfterDot(stem: seq<byte>, ext: seq<byte>)
    requires DOT !in ext
    ensures AfterLastDot(stem + [DOT] + ext) == ext
  {
    if ext == [] {
      assert stem + [DOT] + [] == stem + [DOT];
    } else {
      AfterDot(stem, Init(ext));
      assert Init(stem + [DOT] + ext) == stem + [DOT] + Init(ext);
    }
  }

  lemma {:induction false} WithoutDot(name: seq<byte>)
    requires DOT !in name
    ensures AfterLastDot(name) == name
  {
    if name != [] {
      LastIsNot(name, DOT);
      WithoutDot(Init(name));
    }
  }

  lemma LowerParts(stem: seq<byte>, ext: seq<byte>)
    ensures Lower(stem + [DOT] + ext) == Lower(stem) + [DOT] + Lower(ext)
    ensures DOT !in ext ==> DOT !in Lower(ext)
  {
    assert LowerByte(DOT) == DOT;
  }

  /** A name with an extension is indexed exactly if it has a stem that does not begin with a
      dot and the extension, in lower case, is listed; a name without one is not indexed. */
  lemma IndexableIff(stem: seq<byte>, ext: seq<byte>)
    requires DOT !in ext
    ensures IsIndexableName(stem + [DOT] + ext) <==>
            stem != [] && stem[0] != DOT && ext != [] && IsTextExtension(Lower(ext))
    ensures !IsIndexableName(ext)
  {
    LowerParts(stem, ext);
    AfterDot(Lower(stem), Lower(ext));
    WithoutDot(Lower(ext));
  }
}
