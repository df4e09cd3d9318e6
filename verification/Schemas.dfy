/** The rows of the schema table of module Marshal, one lemma each, for proofs that hide the table. */
module Schemas {
  import opened Bytes
  import opened Errors
  import opened Raw
  import opened Marshal
  import opened View

  lemma IfaceSchema()
    ensures Fields(Iface) == [Ptr(TQE_NEXT, Iface), Ptr(I_NAME, CString), Ptr(I_ALIAS, CString)]
    ensures Fields(IfaceList) == [Ptr(TQH_FIRST, Iface)]
  {
  }

  lemma ChassisSchema()
    ensures |Fields(ChassisBox)| == 11
    ensures Fields(ChassisBox)[0] == Ptr(C_ID, Blob)
    ensures Fields(ChassisBox)[1] == Ptr(C_NAME, CString)
    ensures Fields(ChassisBox)[2] == Ptr(C_DESCR, CString)
    ensures Fields(ChassisBox)[3] == Ptr(C_MGMT_FIRST, Mgmt)
    ensures Fields(ChassisBox)[4] == Ptr(C_MED_HW, CString)
    ensures Fields(ChassisBox)[5] == Ptr(C_MED_FW, CString)
    ensures Fields(ChassisBox)[6] == Ptr(C_MED_SW, CString)
    ensures Fields(ChassisBox)[7] == Ptr(C_MED_SN, CString)
    ensures Fields(ChassisBox)[8] == Ptr(C_MED_MANUF, CString)
    ensures Fields(ChassisBox)[9] == Ptr(C_MED_MODEL, CString)
    ensures Fields(ChassisBox)[10] == Ptr(C_MED_ASSET, CString)
  {
  }

  lemma PortBodySchema()
    ensures |Fields(PortBody)| == 10
    ensures Fields(PortBody)[0] == Shared(P_CHASSIS)
    ensures Fields(PortBody)[1] == Ptr(P_ID, Blob)
    ensures Fields(PortBody)[2] == Ptr(P_DESCR, CString)
    ensures Fields(PortBody)[3] == Ptr(P_VLAN_PATTERN, CString)
    ensures forall i | 0 <= i < 3 :: Fields(PortBody)[4 + i] == Sub(P_MED_LOCATION_0 + MED_LOC_SIZE * i, MedLoc)
    ensures Fields(PortBody)[7] == Ptr(P_VLANS_FIRST, Vlan)
    ensures Fields(PortBody)[8] == Ptr(P_PPVIDS_FIRST, Ppvid)
    ensures Fields(PortBody)[9] == Ptr(P_PIDS_FIRST, Pi)
    ensures Fields(MedLoc) == [Ptr(LOC_DATA, Blob)]
  {
  }

  lemma PortSchema()
    ensures Fields(NeighborPort)
         == [Ptr(TQE_NEXT, NeighborPort), Inline(PortBody), Check(P_CHASSIS, true, NoChassis)]
    ensures Fields(NotifiedPort)
         == [Check(TQE_NEXT, false, NotifiedPortChained), Inline(PortBody), Check(P_CHASSIS, true, NoChassis)]
    ensures Fields(LocalPort) == [Check(TQE_NEXT, false, LocalPortChained), Inline(PortBody)]
  {
  }

  lemma HardwareSchema(l: Layout)
    ensures Fields(Hardware(l))
         == [Sub(LocalPortOffset(l), LocalPort), Ptr(NeighborsOffset(l), NeighborPort), Ptr(AliasOffset(l), CString)]
  {
  }

  lemma ChangeSchema()
    ensures Fields(ChangeNotice)
         == [Ptr(N_IFNAME, CString), Ptr(N_IFALIAS, CString), Ptr(N_NEIGHBOR, NotifiedPort)]
  {
  }

  // --------------------------------------------------------- shapes of trees

  /** The parts of a chained port. */
  lemma NeighborShape(t: Tree)
    requires Wf(NeighborPort, t)
    ensures t.Node? && |t.raw| == PORT_SIZE && |t.kids| == 3 && t.kids[1].Group?
    ensures KidsWf(PortBody, t.raw, t.kids[1].kids) && Slot(t.raw, P_CHASSIS) != 0
    ensures t.kids[0].Absent? || (t.kids[0].Child? && Wf(NeighborPort, t.kids[0].tree))
  {
    hide Slot, Fields;
    PortSchema();
    KidAt(NeighborPort, t, 0);
    KidAt(NeighborPort, t, 1);
    KidAt(NeighborPort, t, 2);
  }

  /** The parts of a hardware tree: the embedded local port and its body, the chain, the alias. */
  lemma HardwareShape(l: Layout, t: Tree)
    requires Wf(Hardware(l), t)
    ensures t.Node? && |t.raw| == Size(Hardware(l)) && |t.kids| == 3 && t.kids[0].Marked?
    ensures var local, kids := Inner(t.raw, LocalPortOffset(l), LocalPort), t.kids[0].kids;
            && KidsWf(LocalPort, local, kids)
            && |kids| == 2 && kids[1].Group? && KidsWf(PortBody, local, kids[1].kids) && |kids[1].kids| == 10
    ensures t.kids[1].Child? ==> Wf(NeighborPort, t.kids[1].tree)
  {
    hide Slot, Fields, Inner;
    HardwareSchema(l);
    PortSchema();
    PortBodySchema();
    KidAt(Hardware(l), t, 0);
    KidAt(Hardware(l), t, 1);
    var local, kids := Inner(t.raw, LocalPortOffset(l), LocalPort), t.kids[0].kids;
    assert KidWf(LocalPort, Fields(LocalPort)[1], local, kids[1]);
  }
}
