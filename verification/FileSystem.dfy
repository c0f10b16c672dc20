/** A directory as the deployment scripts see it: names bound to inodes, inodes holding
    bytes, and other processes that may act between any two of our own steps. */
module FileSystem {

  type Name = string

  /** Inode numbers are allocated in order and never recycled. */
  type Inode = nat

  datatype Node = Regular(data: string) | Symlink

  /** What this program did to the directory's names, and which files it asked for there, in order. */
  datatype Event =
    | Seen(name: Name, inode: Inode)
    | Moved(source: Name, target: Name, inode: Inode)
    | Linked(target: Name, inode: Inode)
    | Removed(name: Name, inode: Inode)

  /** One move of the other actors.  They may create files and rebind, link, rename, replace
      or delete every public name, but do not know the private (random) names and do not
      write into existing inodes. */
  predicate Rely(names: map<Name, Inode>, nodes: seq<Node>,
                 names': map<Name, Inode>, nodes': seq<Node>, private: (Name, Name))
  {
    && nodes <= nodes'
    && Keeps(names, names', private.0)
    && Keeps(names, names', private.1)
    && (forall n | n in names' :: names'[n] < |nodes'|)
  }

  ghost predicate Named(names: map<Name, Inode>, inode: Inode) {
    exists n :: n in names && names[n] == inode
  }

  predicate Keeps(names: map<Name, Inode>, names': map<Name, Inode>, name: Name) {
    (name in names' <==> name in names) && (name in names && name in names' ==> names'[name] == names[name])
  }

  class Directory {
    var names: map<Name, Inode>
    var nodes: seq<Node>
    ghost var log: seq<Event>
    /** Inodes whose last name this program took away. */
    ghost var dropped: set<Inode>

    ghost predicate Valid()
      reads this
    {
      forall n :: n in names ==> names[n] < |nodes|
    }

    /** The file a name leads to, when it is a regular file. */
    predicate Holds(name: Name, data: string)
      requires Valid()
      reads this
    {
      name in names && nodes[names[name]] == Regular(data)
    }

    /** Any number of moves by the other actors; none at all when `quiet`. */
    method Interfere(quiet: bool, private: (Name, Name))
      requires Valid()
      modifies this`names, this`nodes
      ensures Valid()
      ensures Rely(old(names), old(nodes), names, nodes, private)
      ensures quiet ==> names == old(names) && nodes == old(nodes)
    {
      var names': map<Name, Inode> := *;
      var nodes': seq<Node> := *;
      assert Rely(names, nodes, names, nodes, private);
      if !quiet && Rely(names, nodes, names', nodes', private) {
        names, nodes := names', nodes';
      }
    }

    /** `stat`: which file a name leads to. */
    method Stat(name: Name) returns (inode: Inode)
      requires Valid() && name in names
      modifies this`log
      ensures inode == names[name] && log == old(log) + [Seen(name, inode)]
    {
      inode := names[name];
      log := log + [Seen(name, inode)];
    }

    /** Exclusive create of an empty file. */
    method Create(name: Name) returns (inode: Inode)
      requires Valid() && name !in names
      modifies this`names, this`nodes
      ensures Valid()
      ensures inode == |old(nodes)| && nodes == old(nodes) + [Regular("")]
      ensures names == old(names)[name := inode]
    {
      inode := |nodes|;
      nodes := nodes + [Regular("")];
      names := names[name := inode];
    }

    method Write(name: Name, data: string)
      requires Valid() && name in names
      modifies this`nodes
      ensures Valid()
      ensures nodes == old(nodes)[names[name] := Regular(data)]
    {
      nodes := nodes[names[name] := Regular(data)];
    }

    /** `rename` into a name that is vacant. */
    method Move(source: Name, target: Name)
      requires Valid() && source in names && target !in names
      modifies this`names, this`log
      ensures Valid()
      ensures names == old(names)[target := old(names)[source]] - {source}
      ensures log == old(log) + [Moved(source, target, old(names)[source])]
    {
      log := log + [Moved(source, target, names[source])];
      names := names[target := names[source]] - {source};
    }

    /** `link`, which fails rather than overwrite: callable only on a vacant name. */
    method Link(source: Name, target: Name)
      requires Valid() && source in names && target !in names
      modifies this`names, this`log
      ensures Valid()
      ensures names == old(names)[target := old(names)[source]]
      ensures log == old(log) + [Linked(target, old(names)[source])]
    {
      log := log + [Linked(target, names[source])];
      names := names[target := names[source]];
    }

    /** `unlink`; an inode left without any name is dropped. */
    method Remove(name: Name)
      requires Valid() && name in names
      modifies this`names, this`log, this`dropped
      ensures Valid()
      ensures names == old(names) - {name}
      ensures log == old(log) + [Removed(name, old(names)[name])]
      ensures dropped == old(dropped) + (if Named(names, old(names)[name]) then {} else {old(names)[name]})
    {
      var inode := names[name];
      log := log + [Removed(name, inode)];
      names := names - {name};
      dropped := dropped + (if Named(names, inode) then {} else {inode});
    }
  }
}
