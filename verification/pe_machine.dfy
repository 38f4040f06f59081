/** The architecture label `get_dll_architecture` derives from the
    `IMAGE_FILE_HEADER.Machine` word of a PE image ("Machine Types" in the
    Microsoft PE/COFF specification).  Opening and parsing the file is not
    part of this model: the Machine word is the input. */
module PeMachine {
  import opened Basics

  const IMAGE_FILE_MACHINE_AMD64: u16 := 0x8664
  const IMAGE_FILE_MACHINE_I386: u16 := 0x014c
  const IMAGE_FILE_MACHINE_IA64: u16 := 0x0200
  /** A Characteristics flag in the PE format; the source matches it against
      the Machine word all the same, and so does this model. */
  const IMAGE_FILE_32BIT_MACHINE: u16 := 0x0100

  datatype Arch = Amd64 | I386 | Ia64 | Bit32 | Unknown

  /** The match arms of `get_dll_architecture`. */
  function Classify(machine: u16): (a: Arch)
    ensures a == Amd64 <==> machine == 0x8664
    ensures a == I386 <==> machine == 0x014c
    ensures a == Ia64 <==> machine == 0x0200
    ensures a == Bit32 <==> machine == 0x0100
    ensures a == Unknown <==> machine !in {0x8664, 0x014c, 0x0200, 0x0100}
  {
    if machine == IMAGE_FILE_MACHINE_AMD64 then Amd64
    else if machine == IMAGE_FILE_MACHINE_I386 then I386
    else if machine == IMAGE_FILE_MACHINE_IA64 then Ia64
    else if machine == IMAGE_FILE_32BIT_MACHINE then Bit32
    else Unknown
  }

  /** The string stored in `DllInfo.dll_arch`. */
  function Label(a: Arch): string
  {
    match a
    case Amd64 => "x64/AMD64"
    case I386 => "x86/I386"
    case Ia64 => "x64/IA64"
    case Bit32 => "x32/32BIT"
    case Unknown => "unknown"
  }

  /** The Machine word each recognised architecture stands for. */
  function MachineOf(a: Arch): Option<u16>
  {
    match a
    case Amd64 => Some(IMAGE_FILE_MACHINE_AMD64)
    case I386 => Some(IMAGE_FILE_MACHINE_I386)
    case Ia64 => Some(IMAGE_FILE_MACHINE_IA64)
    case Bit32 => Some(IMAGE_FILE_32BIT_MACHINE)
    case Unknown => None
  }

  /** The label `get_dll_architecture` returns for a Machine word. */
  function ArchLabel(machine: u16): (text: string)
    ensures machine == 0x8664 ==> text == "x64/AMD64"
    ensures machine == 0x014c ==> text == "x86/I386"
    ensures machine == 0x0200 ==> text == "x64/IA64"
    ensures machine == 0x0100 ==> text == "x32/32BIT"
    ensures machine !in {0x8664, 0x014c, 0x0200, 0x0100} ==> text == "unknown"
  {
    Label(Classify(machine))
  }

  /** Distinct architectures get distinct labels, so the label loses nothing. */
  lemma LabelInjective(a: Arch, b: Arch)
    requires Label(a) == Label(b)
    ensures a == b
  {
  }

  /** Classification round trip: an image whose Machine word is the one of a
      recognised architecture is classified as that architecture, and a
      word classified as recognised is that architecture's word. */
  lemma ClassifyRoundTrip(a: Arch, machine: u16)
    ensures MachineOf(a) == Some(machine) ==> Classify(machine) == a
    ensures Classify(machine) == a && a != Unknown ==> MachineOf(a) == Some(machine)
  {
  }

  /** The label is "unknown" exactly when no match arm recognises the word. */
  lemma UnknownLabelExactly(machine: u16)
    ensures ArchLabel(machine) == "unknown" <==> MachineOf(Classify(machine)).None?
  {
    if ArchLabel(machine) == "unknown" {
      LabelInjective(Classify(machine), Unknown);
    }
  }
}
