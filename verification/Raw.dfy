/**
 Sizes and field offsets of the `repr(C)` structs on a 64-bit target. A struct is
 kept as its content bytes; a field is the little-endian number at its offset.
 Module Layouts computes every number below from the field declarations.
 */
module Raw {
  const INTERFACE_LIST_SIZE: nat := 16
  const TQH_FIRST: nat := 0

  const INTERFACE_SIZE: nat := 32
  const TQE_NEXT: nat := 0
  const I_NAME: nat := 16
  const I_ALIAS: nat := 24

  const MGMT_SIZE: nat := 56
  const M_FAMILY: nat := 16
  const M_ADDR: nat := 20
  const M_ADDRSIZE: nat := 40
  const M_IFACE: nat := 48

  const VLAN_SIZE: nat := 32
  const V_NAME: nat := 16

  const PPVID_SIZE: nat := 24

  const PI_SIZE: nat := 32
  const P_PI: nat := 16

  const MED_LOC_SIZE: nat := 24
  const LOC_DATA: nat := 8

  const CHASSIS_SIZE: nat := 144
  const C_ID_SUBTYPE: nat := 21
  const C_ID: nat := 24
  const C_NAME: nat := 40
  const C_DESCR: nat := 48
  const C_CAP_AVAILABLE: nat := 56
  const C_CAP_ENABLED: nat := 58
  const C_MGMT_FIRST: nat := 64
  const C_MED_HW: nat := 88
  const C_MED_FW: nat := 96
  const C_MED_SW: nat := 104
  const C_MED_SN: nat := 112
  const C_MED_MANUF: nat := 120
  const C_MED_MODEL: nat := 128
  const C_MED_ASSET: nat := 136

  const PORT_SIZE: nat := 368
  const P_CHASSIS: nat := 16
  const P_ID_SUBTYPE: nat := 64
  const P_ID: nat := 72
  const P_DESCR: nat := 88
  const P_TTL: nat := 102
  const P_VLAN_PATTERN: nat := 112
  const P_MED_LOCATION_0: nat := 232
  const P_MED_LOCATION_1: nat := 256
  const P_MED_LOCATION_2: nat := 280
  const P_VLANS_FIRST: nat := 320
  const P_PPVIDS_FIRST: nat := 336
  const P_PIDS_FIRST: nat := 352

  // struct lldpd_hardware up to 1.0.22
  const HARDWARE_SIZE: nat := 632
  const H_IFNAME: nat := 80
  const H_IFALIAS: nat := 96
  const H_LLADDR: nat := 104
  const H_LPORT: nat := 240
  const H_RPORTS_FIRST: nat := 608

  // the same struct with h_flags_previous inserted
  const FP_HARDWARE_SIZE: nat := 640
  const FP_IFNAME: nat := 84
  const FP_IFALIAS: nat := 104
  const FP_LLADDR: nat := 112
  const FP_LPORT: nat := 248
  const FP_RPORTS_FIRST: nat := 616

  const CHANGE_SIZE: nat := 32
  const N_IFNAME: nat := 0
  const N_IFALIAS: nat := 8
  const N_STATE: nat := 16
  const N_NEIGHBOR: nat := 24

  const PORT_SET_SIZE: nat := 80
  const S_IFNAME: nat := 0
  const S_LOCAL_DESCR: nat := 16
  const S_VLAN_TX_ENABLED: nat := 40

  const IFNAMSIZ: nat := 16
  const ETHER_ADDR_LEN: nat := 6
  const M_MAXADDR: nat := 16
}
