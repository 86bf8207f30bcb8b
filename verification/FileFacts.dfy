/** What the scanner concludes from the first bytes of a file or image, against the whole file. */
module FileFacts {
  import opened Text
  import opened PeFormat
  import opened PePrefix
  import opened Memory
  import opened Classify

  /** `d` is what a read of at most `n` bytes gives of the file `f`. */
  predicate PrefixOf(fs: FileSystem, path: string, f: Bytes, n: nat) {
    path != "" && ReadFilePrefix(fs, path, n) == Take(f, n)
  }

  lemma TakeIsPrefix(f: Bytes, n: nat)
    ensures Take(f, n) <= f
  {
  }

  /** A file has an overlay exactly when its size is known, its first 64 KiB parse as PE, and a section
      with raw bytes ends before the end of the file; the overlay is what is left. */
  lemma OverlayIff(fs: FileSystem, path: string)
    ensures var pe := PeOf(ReadFilePrefix(fs, path, 65536), fs.entropy);
            && (OverlayOf(fs, path) > 0 <==>
                  path != "" && fs.size(path).Some? && pe.valid && 0 < pe.rawImageEnd < fs.size(path).value)
            && (OverlayOf(fs, path) > 0 ==> pe.rawImageEnd + OverlayOf(fs, path) == fs.size(path).value)
  {
    hide PeOf;
    if ReadFilePrefix(fs, path, 65536) == [] {
      EmptyIsNoPe(fs.entropy);
    }
  }

  lemma EmptyIsNoPe(entropy: seq<nat> -> real)
    ensures !PeOf([], entropy).valid
  {
  }

  /** The overlay computed from the first 64 KiB and the file size is the overlay of the whole file,
      as soon as those 64 KiB hold the section headers. */
  lemma OverlayFromPrefixIsExact(fs: FileSystem, path: string, f: Bytes)
    requires PrefixOf(fs, path, f, 65536) && fs.size(path) == Some(|f|) && |f| <= MAX_SIZE
    requires var head := Take(f, 65536); IsPe(head) && HasMagic(head) && HasAllSections(head)
    ensures OverlayOf(fs, path) == PeOf(f, fs.entropy).overlaySize
  {
    hide PeOf, IsPe, HasMagic, HasAllSections;
    var head := Take(f, 65536);
    TakeIsPrefix(f, 65536);
    RawEndComplete(head, f, fs.entropy);
    OverlayOfParse(f, fs.entropy);
    PeIsValid(head, fs.entropy);
  }

  lemma PeIsValid(d: Bytes, entropy: seq<nat> -> real)
    requires |d| <= MAX_SIZE && IsPe(d)
    ensures PeOf(d, entropy).valid && d != []
  {
    hide HasMagic, U16At, U32At;
    HeaderOnly(d, entropy);
    assert |d| >= DOS_SIZE;
  }

  /** Two reads of the same image, one longer than the other. */
  predicate SameImage(a: Bytes, b: Bytes) { a <= b || b <= a }

  /** A PE image is read with the whole optional header that its magic announces. */
  predicate WholeOptional(d: Bytes) { IsPe(d) ==> HasMagic(d) && HasFullOptional(d) }

  /** When memory and disk were read to the same bytes, or start with the same bytes and both reads
      hold the whole optional header, no header mismatch is reported. */
  lemma UnchangedHeaderMatches(fs: FileSystem, head: Bytes, mapped: string)
    requires |head| <= 4096
    requires var disk := ReadFilePrefix(fs, mapped, 4096);
             head == disk || (SameImage(head, disk) && WholeOptional(head) && WholeOptional(disk))
    ensures !HeaderDiffers(fs, head, mapped)
  {
    hide PeOf, IsPe, HasMagic, HasFullOptional;
    var disk := ReadFilePrefix(fs, mapped, 4096);
    ValidIsPe(head, fs.entropy);
    ValidIsPe(disk, fs.entropy);
    if head != disk && Pe(fs, head).valid && Pe(fs, disk).valid {
      if head <= disk {
        PrefixMonotone(head, disk, fs.entropy);
      } else {
        PrefixMonotone(disk, head, fs.entropy);
      }
    }
  }
}
