/**
 * Directory trees and the stream of entries fts(3) yields for them.
 *
 * A tree is what one physical, non-crossing walk sees. Extended attributes that installd reads
 * while walking are part of each entry. Only well-formed streams are modelled: every directory
 * is announced in pre-order (`D`) and again in post-order (`DP`).
 */
module Fts {

  /** What stat(2) and getxattr(2) report for an entry; the two flags matter for directories. */
  datatype Attr = Attr(name: string, size: nat, mtime: int, group: bool, tombstone: bool)

  datatype Node =
    | Leaf(attr: Attr, regular: bool)
    | Dir(attr: Attr, children: seq<Node>)

  /** `Special` stands for FTS_DEFAULT, FTS_SL and FTS_SLNONE, which installd never tells apart. */
  datatype Info = D | DP | F | Special

  /** A path is a list of components; the first one is the path the walk was opened on. */
  type Path = seq<string>

  datatype Event = Event(info: Info, level: nat, path: Path, attr: Attr)

  function Events(n: Node, level: nat, path: Path): seq<Event>
    decreases n
  {
    match n
    case Leaf(attr, regular) => [Event(if regular then F else Special, level, path, attr)]
    case Dir(attr, children) =>
      [Event(D, level, path, attr)] + EventsAll(children, level + 1, path) + [Event(DP, level, path, attr)]
  }

  function EventsAll(cs: seq<Node>, level: nat, parent: Path): seq<Event>
    decreases cs
  {
    if cs == [] then []
    else Events(cs[0], level, parent + [cs[0].attr.name]) + EventsAll(cs[1..], level, parent)
  }

  /** The text of a path: its components separated by slashes. */
  function Render(path: Path): string {
    if path == [] then ""
    else if |path| == 1 then path[0]
    else Render(path[..|path| - 1]) + "/" + path[|path| - 1]
  }

  /** Bytes occupied by an entry and everything below it. */
  function TotalSize(n: Node): nat
    decreases n
  {
    match n
    case Leaf(attr, _) => attr.size
    case Dir(attr, children) => attr.size + TotalSizeAll(children)
  }

  function TotalSizeAll(cs: seq<Node>): nat
    decreases cs
  {
    if cs == [] then 0 else TotalSize(cs[0]) + TotalSizeAll(cs[1..])
  }
}
