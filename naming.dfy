/** The identifier and file-name helpers of generator.go. */
module Naming {
  import opened GoStrings
  import opened Descriptors

  /** removePkg: the text after the last '.', or all of `s` when it has none. */
  function RemovePkg(s: string): (r: string)
    ensures '.' !in r
    ensures HasSuffix(s, r)
    ensures forall k :: |s| - |r| <= k < |s| ==> s[k] != '.'

    ensures r == s || s[|s| - |r| - 1] == '.'
    ensures r == s <==> '.' !in s
  {
    LastPieceOfSplit(s, '.');
    var parts := Split(s, '.');
    parts[|parts| - 1]
  }

  /** Stripping a package qualifier gives back the unqualified name. */
  lemma RemovePkgOfQualified(qualifier: string, name: string)
    requires '.' !in name
    ensures RemovePkg(qualifier + "." + name) == name
  {
    var s := qualifier + "." + name;
    var r := RemovePkg(s);
    assert s[|qualifier|] == '.';
    forall k | 0 <= k < |name| ensures s[|qualifier| + 1 + k] == name[k] && name[k] != '.' {
      assert name[k] in name;
    }
    assert s[|s| - |name|..] == name;
  }

  /** upperCaseFirst: the first character upper-cased, the rest lower-cased.
      Go slices s[0:1], so the empty string is excluded. */
  function UpperCaseFirst(s: string): (r: string)
    requires s != ""
    ensures |r| == |s|
    ensures r[0] == ToUpperChar(s[0])
    ensures r[1..] == ToLower(s[1..])
  {
    ToUpper(s[..1]) + ToLower(s[1..])
  }

  lemma UpperCaseFirstIdempotent(s: string)
    requires s != ""
    ensures UpperCaseFirst(UpperCaseFirst(s)) == UpperCaseFirst(s)
  {
    var r := UpperCaseFirst(s);
    var rr := UpperCaseFirst(r);
    assert rr[0] == r[0];
    forall i | 1 <= i < |s| ensures rr[i] == r[i] {
      assert rr[1..][i - 1] == ToLowerChar(r[1..][i - 1]);
      assert r[1..][i - 1] == ToLowerChar(s[1..][i - 1]);
    }
  }

  /** The JavaScript global conversion functions that the templates name for repeated
      scalar fields. */
  lemma UpperCaseFirstOfScalars()
    ensures UpperCaseFirst("string") == "String"
    ensures UpperCaseFirst("number") == "Number"
    ensures UpperCaseFirst("boolean") == "Boolean"
  {
    UpperCaseFirstOfString();
    UpperCaseFirstOfNumber();
    UpperCaseFirstOfBoolean();
  }

  lemma UpperCaseFirstOfString()
    ensures UpperCaseFirst("string") == "String"
  {
    UpperCaseFirstOfLowerWord("string", "String");
  }

  lemma UpperCaseFirstOfNumber()
    ensures UpperCaseFirst("number") == "Number"
  {
    UpperCaseFirstOfLowerWord("number", "Number");
  }

  lemma UpperCaseFirstOfBoolean()
    ensures UpperCaseFirst("boolean") == "Boolean"
  {
    UpperCaseFirstOfLowerWord("boolean", "Boolean");
  }

  /** A lower-case word gets only its first letter upper-cased. */
  lemma UpperCaseFirstOfLowerWord(s: string, r: string)
    requires s != "" && |r| == |s| && r[0] == ToUpperChar(s[0]) && r[1..] == s[1..]
    requires forall i :: 1 <= i < |s| ==> 'a' <= s[i] <= 'z'
    ensures UpperCaseFirst(s) == r
  {
    var u := UpperCaseFirst(s);
    forall i | 1 <= i < |s| ensures u[i] == r[i] {
      assert u[i] == u[1..][i - 1] == ToLowerChar(s[1..][i - 1]);
    }
  }

  /** What camelCase needs in order not to panic: every '_'-piece after the first is
      non-empty (Go slices p[0:1] of each), that is, no "__" and no trailing '_'. */
  predicate CamelCaseSafe(s: string) {
    forall i :: 1 <= i < |Split(s, '_')| ==> Split(s, '_')[i] != ""
  }

  /** The rewrite camelCase applies to the piece at position `i`. */
  function CamelPiece(i: nat, p: string): string
    requires i == 0 || p != ""
  {
    if i == 0 then ToLower(p) else UpperCaseFirst(p)
  }

  function CamelPieces(parts: seq<string>): (r: seq<string>)
    requires forall i :: 1 <= i < |parts| ==> parts[i] != ""
    ensures |r| == |parts|
    ensures forall i :: 0 <= i < |parts| ==> r[i] == CamelPiece(i, parts[i])
  {
    seq(|parts|, i requires 0 <= i < |parts| => CamelPiece(i, parts[i]))
  }

  /** camelCase as a value: the first '_'-piece lower-cased, each later piece
      capitalised, joined without separator. */
  function CamelCaseOf(s: string): string
    requires CamelCaseSafe(s)
  {
    Join(CamelPieces(Split(s, '_')), "")
  }

  /** camelCase, rewriting the pieces in place as the Go loop does. */
  method CamelCase(s: string) returns (r: string)
    requires CamelCaseSafe(s)
    ensures r == CamelCaseOf(s)
  {
    var parts := Split(s, '_');
    ghost var pieces := parts;
    var i := 0;
    while i < |parts|
      invariant 0 <= i <= |parts| == |pieces|
      invariant forall k :: 0 <= k < i ==> parts[k] == CamelPiece(k, pieces[k])
      invariant forall k :: i <= k < |parts| ==> parts[k] == pieces[k]
    {
      var p := parts[i];
      if i == 0 {
        parts := parts[i := ToLower(p)];
      } else {
        parts := parts[i := ToUpper(p[0..1]) + ToLower(p[1..])];
      }
      i := i + 1;
    }
    assert parts == CamelPieces(pieces);
    r := Join(parts, "");
  }

  lemma ToLowerKeepsUnderscores(s: string)
    ensures ('_' in ToLower(s)) == ('_' in s)
  {
    var r := ToLower(s);
    forall i | 0 <= i < |s| ensures (r[i] == '_') == (s[i] == '_') { }
    if '_' in s {
      var i :| 0 <= i < |s| && s[i] == '_';
      assert r[i] == '_';
    }
  }

  /** camelCase removes every underscore. */
  lemma CamelCaseRemovesUnderscores(s: string)
    requires CamelCaseSafe(s)
    ensures '_' !in CamelCaseOf(s)
  {
    var parts := Split(s, '_');
    var pieces := CamelPieces(parts);
    forall i | 0 <= i < |pieces| ensures '_' !in pieces[i] {
      if i == 0 {
        ToLowerKeepsUnderscores(parts[0]);
      } else {
        var p := parts[i];
        ToLowerKeepsUnderscores(p[1..]);
        assert pieces[i] == UpperCaseFirst(p);
        assert pieces[i][1..] == ToLower(p[1..]);
        assert p[0] != '_' by { assert p[0] in p; }
        forall k | 0 <= k < |pieces[i]| ensures pieces[i][k] != '_' {
          if k > 0 {
            assert pieces[i][k] == pieces[i][1..][k - 1];
            assert p[1..][k - 1] in p[1..];
          }
        }
      }
    }
    JoinWithoutChar(pieces, '_');
  }

  /** A name without underscores is only lower-cased. */
  lemma CamelCaseOfWord(s: string)
    requires '_' !in s
    ensures CamelCaseSafe(s) && CamelCaseOf(s) == ToLower(s)
  {
  }

  /** "user_id" becomes "userId": the second piece is capitalised and the '_' dropped. */
  lemma CamelCaseOfSnakePair(a: string, b: string)
    requires '_' !in a && '_' !in b && b != ""
    ensures CamelCaseSafe(a + "_" + b)
    ensures CamelCaseOf(a + "_" + b) == ToLower(a) + UpperCaseFirst(b)
  {
    SplitPair(a, b, '_');
    CamelPiecesOfPair(a, b);
    JoinPair(ToLower(a), UpperCaseFirst(b));
  }

  lemma CamelPiecesOfPair(a: string, b: string)
    requires b != ""
    ensures CamelPieces([a, b]) == [ToLower(a), UpperCaseFirst(b)]
  {
  }

  /** importName: the file name's last element without its extension; this is the
      alias of `import * as <alias>`. */
  function ImportName(fd: FileDescriptor): (r: string)
    ensures r + Ext(Base(fd.name)) == Base(fd.name)
  {
    var base := Base(fd.name);
    base[0..|base| - |Ext(base)|]
  }

  /** importPath: the file name without the extension of its last element.
      Go slices name[0:len(name)-len(ext)], which is out of range for "" (whose Base is "."). */
  function ImportPath(name: string): (r: string)
    requires name != ""
    ensures HasPrefix(name, r)
    ensures |r| == |name| - |Ext(Base(name))|
  {
    var base := Base(name);
    name[0..|name| - |Ext(base)|]
  }

  /** tsFileName: the output file of a .proto file. */
  function TsFileName(name: string): (r: string)
    requires name != ""
    ensures HasPrefix(r, ImportPath(name)) && HasSuffix(r, ".ts") && |r| == |ImportPath(name)| + 3
  {
    ImportPath(name) + ".ts"
  }

  /** For a file path (not ending in '/'), the output path is the input path with its
      extension removed, and it ends with the import alias: `import * as a from './x/a'`. */
  lemma ImportPathOfFile(fd: FileDescriptor)
    requires fd.name != "" && fd.name[|fd.name| - 1] != '/'
    ensures ImportPath(fd.name) + Ext(fd.name) == fd.name
    ensures HasSuffix(ImportPath(fd.name), ImportName(fd))
  {
    var name := fd.name;
    var b := Base(name);
    FileNameParts(name);
    PathAlgebra(name, name[..|name| - |b|], b, ImportName(fd), Ext(b), ImportPath(name));
  }

  /** A file path is its directory part followed by its base, and its extension is
      that of its base. */
  lemma FileNameParts(name: string)
    requires name != "" && name[|name| - 1] != '/'
    ensures name == name[..|name| - |Base(name)|] + Base(name)
    ensures Ext(name) == Ext(Base(name))
  {
    var b := Base(name);
    BaseOfFilePath(name);
    var dir := name[..|name| - |b|];
    SuffixSplit(name, b);
    assert name == dir + b;
    assert dir == "" || dir[|dir| - 1] == name[|name| - |b| - 1];
    ExtOfLastElement(dir, b);
  }

  lemma PathAlgebra(name: string, dir: string, base: string, stem: string, ext: string, path: string)
    requires name == dir + base && stem + ext == base
    requires HasPrefix(name, path) && |path| == |name| - |ext|
    ensures path + ext == name
    ensures HasSuffix(path, stem)
  {
    AppendAssoc(dir, stem, ext);
    assert path == dir + stem;
  }

  lemma TsFileNameExtension(name: string)
    requires name != ""
    ensures Ext(TsFileName(name)) == ".ts"
  {
    ExtOfTs(ImportPath(name));
  }
}
