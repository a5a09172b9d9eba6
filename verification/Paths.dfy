/** Unix paths as `std::path` compares them: component by component. */
module Paths {
  import opened Wrappers
  import opened Seqs
  import opened Text

  datatype Components = Components(absolute: bool, names: seq<string>)

  function Parse(p: string): Components {
    Components(StartsWith(p, "/"), Names(SplitAll(p, '/')))
  }

  /** Repeated separators and `.` components vanish, except a `.` that opens a relative path. */
  function Names(pieces: seq<string>): seq<string>
    requires pieces != []
  {
    (if pieces[0] == "." then ["."] else []) + Where(pieces, IsName)
  }

  predicate IsName(piece: string) {
    piece != "" && piece != "."
  }

  function Parent(p: string): Option<Components> {
    var c := Parse(p);
    if c.names == [] then None else Some(c.(names := c.names[..|c.names| - 1]))
  }

  function FileName(p: string): Option<string> {
    var names := Parse(p).names;
    if names == [] || names[|names| - 1] == ".." || names[|names| - 1] == "." then None
    else Some(names[|names| - 1])
  }

  /** `dir.join(name)` for a name without separators. */
  function JoinPath(dir: string, name: string): string {
    dir + (if dir == "" || EndsWith(dir, "/") then "" else "/") + name
  }

  predicate IsDirectlyIn(p: string, dirs: seq<string>) {
    Parent(p).Some? && exists d :: d in dirs && Parent(p).value == Parse(d)
  }

  /** One plain path component. */
  predicate IsPlainName(name: string) {
    IsName(name) && name != ".." && '/' !in name
  }

  lemma OneName(name: string)
    requires IsPlainName(name)
    ensures SplitAll(name, '/') == [name] && Names([name]) == [name]
  {
    assert [name][1..] == [];
    assert Where([name], IsName) == [name];
    assert [] + [name] == [name];
  }

  lemma PiecesMore(head: string, name: string)
    requires IsPlainName(name)
    ensures SplitAll(head + "/" + name, '/') == SplitAll(head, '/') + [name]
  {
    SplitAllConcat(head, '/', name);
    OneName(name);
  }

  lemma SlashStarts(head: string, tail: string)
    ensures StartsWith(head + "/" + tail, "/") <==> head == "" || StartsWith(head, "/")
  {
    var p := head + "/" + tail;
    if head != "" {
      assert p[0] == head[0];
    } else {
      assert p == "/" + tail;
    }
  }

  lemma NamesMore(pieces: seq<string>, piece: string)
    requires pieces != []
    ensures Names(pieces + [piece]) == Names(pieces) + if IsName(piece) then [piece] else []
  {
    WhereConcat(pieces, [piece], IsName);
    assert [piece][1..] == [];
    Regroup(if pieces[0] == "." then ["."] else [], Where(pieces, IsName), Where([piece], IsName));
  }

  /** A separator and a plain name after any path. */
  lemma OneMoreName(head: string, name: string)
    requires IsPlainName(name)
    ensures Parse(head + "/" + name).names == Parse(head).names + [name]
    ensures Parse(head + "/" + name).absolute == (head == "" || Parse(head).absolute)
  {
    PiecesMore(head, name);
    NamesMore(SplitAll(head, '/'), name);
    SlashStarts(head, name);
  }

  /** A trailing separator adds no component. */
  lemma TrailingSlash(head: string)
    ensures Parse(head + "/").names == Parse(head).names
    ensures Parse(head + "/").absolute == (head == "" || Parse(head).absolute)
  {
    assert head + "/" + "" == head + "/";
    SplitAllConcat(head, '/', "");
    assert SplitAll("", '/') == [""];
    NamesMore(SplitAll(head, '/'), "");
    SlashStarts(head, "");
  }

  lemma JoinedComponents(dir: string, name: string)
    requires IsPlainName(name)
    ensures Parse(JoinPath(dir, name)) == Components(Parse(dir).absolute, Parse(dir).names + [name])
  {
    if dir == "" {
      OneName(name);
      assert JoinPath(dir, name) == name;
      assert Names([""]) == [] by { assert [""][1..] == []; }
    } else if EndsWith(dir, "/") {
      var head := dir[..|dir| - 1];
      assert dir == head + "/" && JoinPath(dir, name) == head + "/" + name;
      OneMoreName(head, name);
      TrailingSlash(head);
    } else {
      OneMoreName(dir, name);
    }
  }

  /** A plain name joined to a directory lies directly in it. */
  lemma JoinIsInside(dir: string, name: string, dirs: seq<string>)
    requires IsPlainName(name) && dir in dirs
    ensures IsDirectlyIn(JoinPath(dir, name), dirs) && FileName(JoinPath(dir, name)) == Some(name)
  {
    JoinedComponents(dir, name);
  }

  lemma NamesJoin(a: seq<string>, b: seq<string>)
    requires a != []
    ensures Names(a + b) == Names(a) + Where(b, IsName)
  {
    WhereConcat(a, b, IsName);
    Regroup(if a[0] == "." then ["."] else [], Where(a, IsName), Where(b, IsName));
  }

  /** The names of a path, either side of a separator. */
  lemma NamesAcross(head: string, tail: string)
    ensures Parse(head + "/" + tail).names == Names(SplitAll(head, '/')) + Where(SplitAll(tail, '/'), IsName)
  {
    SplitAllConcat(head, '/', tail);
    NamesJoin(SplitAll(head, '/'), SplitAll(tail, '/'));
  }

  lemma NothingBefore(piece: string, tail: string)
    requires (piece == "" || piece == ".")
    ensures Where(SplitAll(piece + "/" + tail, '/'), IsName) == Where(SplitAll(tail, '/'), IsName)
  {
    var pieces := SplitAll(tail, '/');
    SplitAllConcat(piece, '/', tail);
    assert SplitAll(piece, '/') == [piece];
    WhereCons(piece, pieces, IsName);
    assert [] + Where(pieces, IsName) == Where(pieces, IsName);
  }

  /** A doubled separator, and a dot between two, spell the same path. */
  lemma SameSpelling(head: string, tail: string)
    ensures Parse(head + "/" + ("" + "/" + tail)).names == Parse(head + "/" + tail).names
    ensures Parse(head + "/" + ("." + "/" + tail)).names == Parse(head + "/" + tail).names
  {
    NamesAcross(head, tail);
    NamesAcross(head, "" + "/" + tail);
    NamesAcross(head, "." + "/" + tail);
    NothingBefore("", tail);
    NothingBefore(".", tail);
  }

  lemma OnePiece(piece: string)
    requires '/' !in piece && piece != ""
    ensures SplitAll(piece, '/') == [piece] && Where([piece], IsName) == (if piece == "." then [] else [piece])
  {
    assert [piece][1..] == [];
  }

  /** A dot that opens a relative path is a component. */
  lemma LeadingDot(name: string)
    requires IsPlainName(name)
    ensures Parse("." + "/" + name).names == [".", name]
  {
    NamesAcross(".", name);
    OnePiece(".");
    OnePiece(name);
    assert ["."] + [] == ["."] && ["."] + [name] == [".", name];
  }

  /** Two dots are one too, and no file's name. */
  lemma TwoDots(name: string)
    requires IsPlainName(name)
    ensures Parse(name + "/" + "..").names == [name, ".."] && FileName(name + "/" + "..") == None
  {
    NamesAcross(name, "..");
    OnePiece("..");
    OnePiece(name);
    assert [] + [name] == [name] && [name] + [".."] == [name, ".."];
  }
}
