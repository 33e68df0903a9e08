// The names that share a snapshot's parent directory, and the rule by which startup
// decides which of them are abandoned temporaries.
module SnapshotPaths {

  function PreviousName(target: string): string { target + ".previous" }

  function TemporaryPrefix(target: string): string { target + ".snapshot-tmp-" }

  function HoldPrefix(target: string): string { target + ".snapshot-config-hold-" }

  predicate SuffixChar(c: char) { 'a' <= c <= 'z' || '0' <= c <= '9' || c == '_' }

  // The random part of a directory name made by mkdtemp.
  predicate RandomSuffix(x: string) {
    |x| == 8 && forall i :: 0 <= i < |x| ==> SuffixChar(x[i])
  }

  predicate LegacyName(target: string, name: string) {
    target + "." <= name && RandomSuffix(name[|target| + 1..])
  }

  predicate Stale(target: string, name: string) {
    && name != PreviousName(target)
    && (TemporaryPrefix(target) <= name || LegacyName(target, name))
  }

  ghost predicate IsTemporary(target: string, name: string) {
    exists x :: RandomSuffix(x) && name == TemporaryPrefix(target) + x
  }

  ghost predicate IsHold(target: string, name: string) {
    exists x :: RandomSuffix(x) && name == HoldPrefix(target) + x
  }

  // The target, its predecessor, the temporaries and the configuration holds never collide.
  lemma NamesApart(target: string, name: string)
    requires IsTemporary(target, name) || IsHold(target, name)
    ensures name != target && name != PreviousName(target) && target != PreviousName(target)
    ensures !(IsTemporary(target, name) && IsHold(target, name))
  {
    assert |PreviousName(target)| == |target| + 9;
    assert |TemporaryPrefix(target)| == |target| + 14 && |HoldPrefix(target)| == |target| + 22;
  }

  // Startup clears exactly what an interrupted save may have left behind: every temporary,
  // but never the current snapshot, its predecessor, or a held configuration directory.
  lemma StaleNames(target: string, name: string)
    ensures IsTemporary(target, name) ==> Stale(target, name)
    ensures name == target || name == PreviousName(target) || IsHold(target, name) ==> !Stale(target, name)
  {
    if IsTemporary(target, name) {
      NamesApart(target, name);
    }
    if IsHold(target, name) {
      assert |name| == |target| + 30;
      var dot := |target| + 10;
      assert TemporaryPrefix(target)[dot] == 't';
      assert name[dot] == HoldPrefix(target)[dot] == 'c';
    }
  }

  // Without the explicit exception the old naming scheme would claim the predecessor too.
  lemma PreviousLooksLegacy(target: string)
    ensures LegacyName(target, PreviousName(target)) && !Stale(target, PreviousName(target))
  {
    assert PreviousName(target) == target + "." + "previous";
    assert PreviousName(target)[|target| + 1..] == "previous";
  }
}
