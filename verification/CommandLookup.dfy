/**
 How the command registry picks the command (dxrk/commands/registry.py): the longest
 prefix of the argument list that spells a registered name.

 A name may have several words, joined by single blanks.
 */
module CommandLookup {
  import opened Wrappers
  import Words

  function Spell(argv: seq<string>): string {
    if argv == [] then ""
    else if |argv| == 1 then argv[0]
    else argv[0] + " " + Spell(argv[1..])
  }

  predicate Names(commands: set<string>, argv: seq<string>, n: nat)
    requires n <= |argv|
  {
    Spell(argv[..n]) in commands
  }

  /** A name of several words is never empty. */
  lemma SpellsSomething(argv: seq<string>)
    requires |argv| >= 2
    ensures Spell(argv) != ""
  {
    assert |Spell(argv)| == |argv[0] + " "| + |Spell(argv[1..])|;
  }

  /**
   The number of words of the command, or None when it is unknown. An empty name counts
   as unknown even if it is registered; it can only be spelled by a single empty word, so
   it never hides a longer name.
   */
  method Lookup(commands: set<string>, argv: seq<string>) returns (words: Option<nat>)
    ensures words.Some? ==>
              && 0 < words.value <= |argv| && Names(commands, argv, words.value)
              && Spell(argv[..words.value]) != ""
              && forall n :: words.value < n <= |argv| ==> !Names(commands, argv, n)
    ensures words.None? <==> forall n :: 0 < n <= |argv| && Names(commands, argv, n) ==> Spell(argv[..n]) == ""
  {
    for i := |argv| downto 0
      invariant forall n :: i < n <= |argv| ==> !Names(commands, argv, n)
    {
      var candidate := Spell(argv[..i + 1]);
      if i > 0 {
        SpellsSomething(argv[..i + 1]);
      }
      if candidate in commands {
        assert Names(commands, argv, i + 1);
        if candidate == "" {
          return None;
        }
        return Some(i + 1);
      }
    }
    return None;
  }

  /** A name is its words with single blanks between them. */
  lemma {:induction false} SpellJoins(argv: seq<string>)
    ensures Spell(argv) == Words.Join(' ', argv)
  {
    if |argv| > 1 {
      SpellJoins(argv[1..]);
      Words.JoinCons(' ', argv[0], argv[1..]);
      assert argv == [argv[0]] + argv[1..] && argv[0] + " " == argv[0] + [' '];
    }
  }
}
