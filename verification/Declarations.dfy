/** Every struct of the protocol, declared field by field, and the size the layout rule gives it. */
module Declarations {
  import opened Marshal
  import opened Layouts

  /** The port, each nested struct as its own declaration makes it. */
  function PortDeclaration(): seq<Decl> {
    PortDeclsFrom(
      StructType(Scalars(Dot3MacphyDecls())), StructType(Scalars(Dot3PowerDecls())),
      StructType(Scalars(MedPolicyDecls())), StructType(Scalars(MedLocDecls())),
      StructType(Scalars(MedPowerDecls())), StructType(Scalars(CdpPowerDecls())))
  }

  /** The hardware struct, its port as declared. */
  function HardwareDeclaration(l: Layout): seq<Decl> {
    var port := StructType(Scalars(PortDeclaration()));
    if l.Legacy? then HardwareDeclsFrom(port) else FpHardwareDeclsFrom(port)
  }

  /** The declarations come down to the field lists whose offsets module Layouts computes. */
  lemma NestedTypesAreComputed()
    ensures PortDeclaration() == PortDecls()
    ensures StructType(Scalars(PortDeclaration())) == PORT_T
    ensures HardwareDeclaration(Legacy) == HardwareDecls() && HardwareDeclaration(FlagsPrevious) == FpHardwareDecls()
  {
    hide StructType, PortDeclsFrom, HardwareDeclsFrom, FpHardwareDeclsFrom, Scalars, Dot3MacphyDecls, Dot3PowerDecls,
      MedPolicyDecls, MedLocDecls, MedPowerDecls, CdpPowerDecls;
    Dot3MacphyLayout();
    Dot3PowerLayout();
    MedPolicyLayout();
    MedLocLayout();
    MedPowerLayout();
    CdpPowerLayout();
    PortLayout2();
  }

  /** The struct behind a type, as declared. */
  function Declaration(ty: Ty): seq<CType>
    requires !IsLeaf(ty)
  {
    match ty
    case IfaceList => Scalars(InterfaceListDecls())
    case Iface => Scalars(InterfaceDecls())
    case Mgmt => Scalars(MgmtDecls())
    case ChassisBox => Scalars(ChassisDecls())
    case Vlan => Scalars(VlanDecls())
    case Ppvid => Scalars(PpvidDecls())
    case Pi => Scalars(PiDecls())
    case MedLoc => Scalars(MedLocDecls())
    case PortBody => Scalars(PortDeclaration())
    case LocalPort => Scalars(PortDeclaration())
    case NeighborPort => Scalars(PortDeclaration())
    case NotifiedPort => Scalars(PortDeclaration())
    case Hardware(l) => Scalars(HardwareDeclaration(l))
    case ChangeNotice => Scalars(ChangeDecls())
    case PortSet => PortSetFields()
  }

  /** `size_of` every struct is what its declaration says, and every struct is pointer-aligned. */
  lemma SizesAreComputed(ty: Ty)
    requires !IsLeaf(ty)
    ensures StructType(Declaration(ty)) == CType(Size(ty), 8)
  {
    hide StructType, PortDeclaration, HardwareDeclaration, PortDecls, HardwareDecls, FpHardwareDecls, Scalars,
      InterfaceListDecls, InterfaceDecls, MgmtDecls, ChassisDecls, VlanDecls, PpvidDecls, PiDecls, MedLocDecls,
      ChangeDecls, PortSetFields;
    NestedTypesAreComputed();
    match ty
    case IfaceList => InterfaceListLayout();
    case Iface => InterfaceLayout();
    case Mgmt => MgmtLayout();
    case ChassisBox => ChassisLayout1();
    case Vlan => VlanLayout();
    case Ppvid => PpvidLayout();
    case Pi => PiLayout();
    case MedLoc => MedLocLayout();
    case PortBody =>
    case LocalPort =>
    case NeighborPort =>
    case NotifiedPort =>
    case Hardware(l) => if l.Legacy? { HardwareLayout1(); } else { FpHardwareLayout1(); }
    case ChangeNotice => ChangeLayout();
    case PortSet => PortSetLayout();
  }
}
