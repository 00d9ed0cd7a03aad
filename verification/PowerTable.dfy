/** powers::power_of_five_128: 128 bits of the powers of five from 5^-342 to 5^308, two words each. Every row is a call
    with literals, whose preconditions check them. */
module PowerTable {
  import opened PowersOfFive

  /** The row of 5^q. */
  function PowerOfFive128(q: int): (r: Row)
    requires SMALLEST_POWER <= q <= LARGEST_POWER
    ensures IsRow(q, r)
  {
    match q / 14
    case -25 => FromMinus350(q % 14)
    case -24 => FromMinus336(q % 14)
    case -23 => FromMinus322(q % 14)
    case -22 => FromMinus308(q % 14)
    case -21 => FromMinus294(q % 14)
    case -20 => FromMinus280(q % 14)
    case -19 => FromMinus266(q % 14)
    case -18 => FromMinus252(q % 14)
    case -17 => FromMinus238(q % 14)
    case -16 => FromMinus224(q % 14)
    case -15 => FromMinus210(q % 14)
    case -14 => FromMinus196(q % 14)
    case -13 => FromMinus182(q % 14)
    case -12 => FromMinus168(q % 14)
    case -11 => FromMinus154(q % 14)
    case -10 => FromMinus140(q % 14)
    case -9 => FromMinus126(q % 14)
    case -8 => FromMinus112(q % 14)
    case -7 => FromMinus98(q % 14)
    case -6 => FromMinus84(q % 14)
    case -5 => FromMinus70(q % 14)
    case -4 => FromMinus56(q % 14)
    case -3 => FromMinus42(q % 14)
    case -2 => FromMinus28(q % 14)
    case -1 => FromMinus14(q % 14)
    case 0 => From0(q % 14)
    case 1 => From14(q % 14)
    case 2 => From28(q % 14)
    case 3 => From42(q % 14)
    case 4 => From56(q % 14)
    case 5 => From70(q % 14)
    case 6 => From84(q % 14)
    case 7 => From98(q % 14)
    case 8 => From112(q % 14)
    case 9 => From126(q % 14)
    case 10 => From140(q % 14)
    case 11 => From154(q % 14)
    case 12 => From168(q % 14)
    case 13 => From182(q % 14)
    case 14 => From196(q % 14)
    case 15 => From210(q % 14)
    case 16 => From224(q % 14)
    case 17 => From238(q % 14)
    case 18 => From252(q % 14)
    case 19 => From266(q % 14)
    case 20 => From280(q % 14)
    case 21 => From294(q % 14)
    case 22 => From308(q % 14)
  }

  function FromMinus350(i: nat): (r: Row)
    requires 8 <= i < 14
    ensures IsRow(-350 + i, r)
  {
    hide IsRow;
    match i
    case 8 => Cut(-13, 22, 51, 0x878678326eac9, 0x8000000000000, 0xeef453d6923bd65a, 0x113faa2906a13b3f,
      0x2884257ad415d1c1f, 0x1d7099a5ee97fff3f, 0x12e8c3085c00b58, 0xdbd63e7725d879)
    case 9 => Cut(-13, 23, 54, 0x2a5a058fc295ed, 0x40000000000000, 0x9558b4661b6565f8, 0x4ac7ca59a424c507,
      0x11b8dfbb08c94fb00, 0x5126604c2833261f, 0x52b5f20e9a32df, 0x17abba3663a159)
    case 10 => Cut(-13, 24, 56, 0xd3c21bcecceda1, 0x100000000000000, 0xbaaee17fa23ebf76, 0x5d79bcf00d2df649,
      0x24f8c5889f20c1d1f, 0x16cb45bfcb4c8211f, 0xd7b00964d77c25, 0x84fa17563d4946)
    case 11 => Cut(-13, 25, 58, 0x422ca8b0a00a425, 0x400000000000000, 0xe95a99df8ace6f53, 0xf4d82c2c107973dc,
      0x159274175a0e001d3, 0x8015d22bed901579, 0x9d4f70eb769ea0, 0x3a60987960dd85)
    case 12 => Cut(-13, 26, 61, 0x14adf4b7320334b9, 0x2000000000000000, 0x91d8a02bb6c10594, 0x79071b9b8a4be869,
      0x159274175a0e001d3, 0xccefb6acaf4cef28, 0x6251a6932a2324, 0x3a60987960dd85)
    case 13 => Cut(-13, 27, 63, 0x6765c793fa10079d, 0x8000000000000000, 0xb64ec836a47146f9, 0x9748e2826cdee284,
      0x159274175a0e001d3, 0xe8fad26e79372617, 0x7ae61037f4abed, 0x52f5021e2b664e)
  }

  function FromMinus336(i: nat): (r: Row)
    requires i < 14
    ensures IsRow(-336 + i, r)
  {
    hide IsRow;
    match i
    case 0 => Cut(-12, 0, 0, 0x1, 0x1, 0xe3e27a444d8d98b7, 0xfd1b1b2308169b25,
      0x33fd2320d92dbca3a, 0x2e45b0ec16ac06ab7, 0x1723ba39d2a714f, 0x14985dc08baf4ec)
    case 1 => Cut(-12, 1, 3, 0x5, 0x8, 0x8e6d8c6ab0787f72, 0xfe30f0f5e50e20f7,
      0x201eec3574f60c697, 0x128246c4d5de69116, 0x8ef72e742e1595, 0x526177022ebd3b)
    case 2 => Cut(-12, 2, 5, 0x19, 0x20, 0xb208ef855c969f4f, 0xbdbd2d335e51a935,
      0x27bd7b6cfec18c679, 0x224b9fa658b817ddf, 0xdd191761f4af2a, 0xbece3ba8f502fd)
    case 3 => Cut(-12, 3, 7, 0x7d, 0x80, 0xde8b2b66b3bc4723, 0xad2c788035e61382,
      0x101f2b49b61ec4684, 0x16a10f43881c36f9, 0x701e599107b6c5, 0x9d5fc42fda987)
    case 4 => Cut(-12, 4, 10, 0x271, 0x400, 0x8b16fb203055ac76, 0x4c3bcb5021afcc31,
      0x104ab1b84c833ef8c, 0x6e6ce568424569d5, 0x46d0272d0059ad, 0x1dff851efd2a54)
    case 5 => Cut(-12, 5, 12, 0xc35, 0x1000, 0xaddcb9e83c6b1793, 0xdf4abe242a1bbf3d,
      0x13ef5c838e26ef645, 0x6e6ce568424569d5, 0x6c4f8d93bcce96, 0x257f6666bc74e9)
    case 6 => Cut(-12, 6, 14, 0x3d09, 0x4000, 0xd953e8624b85dd78, 0xd71d6dad34a2af0d,
      0x29b6516535b262c71, 0x21bcf930966f9c9ef, 0x11b49b7c3618dcd, 0xe521f0f9832682)
    case 7 => Cut(-12, 7, 17, 0x1312d, 0x20000, 0x87d4713d6f33aa6b, 0x8672648c40e5ad68,
      0xd6735a85481380c74, 0xcc836bccea48defdd, 0x38e4658fd07d55d, 0x36418292b5fd6ba)
    case 8 => Cut(-12, 8, 19, 0x5f5e1, 0x80000, 0xa9c98d8ccb009506, 0x680efdaf511f18c2,
      0x1069cd66fae920057, 0x24eb55bd5c817b3a, 0x571625f4740719, 0xc3e36651ff8ff)
    case 9 => Cut(-12, 9, 21, 0x1dcd65, 0x200000, 0xd43bf0effdc0ba48, 0x212bd1b2566def2,
      0x12b882c2d0b137b91, 0x59711a3a190514e5, 0x7c29736ff9001e, 0x25134d7b84f905)
    case 10 => Cut(-12, 10, 24, 0x9502f9, 0x1000000, 0x84a57695fe98746d, 0x14bb630f7604b57,
      0x14f4f03777b7bea53, 0x8f1b5d29c1a1bb08, 0x56debb84dcde54, 0x25134d7b84f905)
    case 11 => Cut(-12, 11, 26, 0x2e90edd, 0x4000000, 0xa5ced43b7e3e9188, 0x419ea3bd35385e2d,
      0x14f4f03777b7bea53, 0xf89be58465e6268e, 0x6c966a661415e9, 0x5082ab3df3682f)
    case 12 => Cut(-12, 12, 28, 0xe8d4a51, 0x10000000, 0xcf42894a5dce35ea, 0x52064cac828675b9,
      0x18107caf85ca9f209, 0xc6e31e0384b81ed8, 0x9bdcafcf15f56f, 0x5082ab3df3682f)
    case 13 => Cut(-12, 13, 31, 0x48c27395, 0x80000000, 0x818995ce7aa0e1b2, 0x7343efebd1940993,
      0x1f85cdcfa79186af1, 0x13e383005a12697c0, 0x7f9aee18a90077, 0x5082ab3df3682f)
  }

  function FromMinus322(i: nat): (r: Row)
    requires i < 14
    ensures IsRow(-322 + i, r)
  {
    hide IsRow;
    match i
    case 0 => Cut(-12, 14, 33, 0x16bcc41e9, 0x200000000, 0xa1ebfb4219491a1f, 0x1014ebe6c5f90bf8,
      0x1ddf28f90b741106e, 0x123cde29bdf4f3d3d, 0x97270f8603cc9b, 0x5c48bbf4a0ce41)
    case 1 => Cut(-12, 15, 35, 0x71afd498d, 0x800000000, 0xca66fa129f9b60a6, 0xd41a26e077774ef6,
      0x10076ee4f4d7a3bd5, 0x5092611d7c1ccfb, 0x656280fa29db86, 0x1fd9f4d46285d)
    case 2 => Cut(-12, 16, 37, 0x2386f26fc1, 0x2000000000, 0xfd00b897478238d0, 0x8920b098955522b4,
      0x21a5298ea3a380845, 0x18364cc1f37290d53, 0x10a0292a47b4455, 0xbf6dda881c7236)
    case 3 => Cut(-12, 17, 40, 0xb1a2bc2ec5, 0x10000000000, 0x9e20735e8cb16382, 0x55b46e5f5d5535b0,
      0x113b35be21882ce16, 0x55893289310b176f, 0x5525d2b036859d, 0x1a6ac2719b40bb)
    case 4 => Cut(-12, 18, 42, 0x3782dace9d9, 0x40000000000, 0xc5a890362fddbc62, 0xeb2189f734aa831d,
      0x2015e4918cf874471, 0x1b54d6bc20c8a94fb, 0xc62fcaa8e17cd0, 0xa8d2428993da5f)
    case 5 => Cut(-12, 19, 44, 0x1158e460913d, 0x100000000000, 0xf712b443bbd52b7b, 0xa5e9ec7501d523e4,
      0x106714b01e4d50953, 0x29d22a59271db485, 0x7ea53e11996f72, 0x142e6a8aeabcc3)
    case 6 => Cut(-12, 20, 47, 0x56bc75e2d631, 0x800000000000, 0x9a6bb0aa55653b2d, 0x47b233c92125366e,
      0x402bc92319f0e88e2, 0x3bd850bda61a4d869, 0x135aaaca7e05305, 0x120ca6a42f275e6)
    case 7 => Cut(-12, 21, 49, 0x1b1ae4d6e2ef5, 0x2000000000000, 0xc1069cd4eabe89f8, 0x999ec0bb696e840a,
      0x114de195cf5a6c1e4, 0xa3d13308c7c37e4b, 0x68614bf8a5519b, 0x3dc2795e45aeea)
    case 8 => Cut(-12, 22, 51, 0x878678326eac9, 0x8000000000000, 0xf148440a256e2c76, 0xc00670ea43ca250d,
      0x1d72514054cf0c9cd, 0x147a266118f86fc96, 0xde0773bf9249d1, 0x9a662f6bae3549)
    case 9 => Cut(-12, 23, 54, 0x2a5a058fc295ed, 0x40000000000000, 0x96cd2a865764dbca, 0x380406926a5e5728,
      0x2f1d4ecd547e7a948, 0x262523ee18a7ddc11, 0xde0773bf9249d1, 0xb3c2a90b23bcfc)
    case 10 => Cut(-12, 24, 56, 0xd3c21bcecceda1, 0x100000000000000, 0xbc807527ed3e12bc, 0xc605083704f5ecf2,
      0x166efd7839bba2f66, 0xfb62675deec3acab, 0x84261f3a006b53, 0x5c8d3413ec40e8)
    case 11 => Cut(-12, 25, 58, 0x422ca8b0a00a425, 0x400000000000000, 0xeba09271e88d976b, 0xf7864a44c633682e,
      0x270936d7ef5b76e5f, 0x1b5faea6e723d8d85, 0x11f6f8b78fbe6e0, 0xc9900648f19c01)
    case 12 => Cut(-12, 26, 61, 0x14adf4b7320334b9, 0x2000000000000000, 0x93445b8731587ea3, 0x7ab3ee6afbe0211d,
      0x13fce7a518b0b37bb, 0x4c313ccb5aab0da9, 0x5bfc7ab64cc178, 0x15ea4f1d542bb5)
    case 13 => Cut(-12, 27, 63, 0x6765c793fa10079d, 0x8000000000000000, 0xb8157268fdae9e4c, 0x5960ea05bad82964,
      0x270936d7ef5b76e5f, 0x2309d5508404ec9a0, 0xe08f24f684cc5f, 0xc9900648f19c01)
  }

  function FromMinus308(i: nat): (r: Row)
    requires i < 14
    ensures IsRow(-308 + i, r)
  {
    hide IsRow;
    match i
    case 0 => Cut(-11, 0, 0, 0x1, 0x1, 0xe61acf033d1a45df, 0x6fb92487298e33bd,
      0x153604e0c2d0f12cb, 0xd3741d1ec23dc94d, 0x9886082b03fad4, 0x5f083b791401e9)
    case 1 => Cut(-11, 1, 3, 0x5, 0x8, 0x8fd0c16206306bab, 0xa5d3b6d479f8e056,
      0x1119a16f2dd647d42, 0x6549a1495f2e6a15, 0x4cda17591ef321, 0x1c735cb729819a)
    case 2 => Cut(-11, 2, 5, 0x19, 0x20, 0xb3c4f1ba87bc8696, 0x8f48a4899877186c,
      0x123c22b7ed0aef10d, 0xca934292be5cd42a, 0x66709c48acdd2b, 0x472067c9e7c401)
    case 3 => Cut(-11, 3, 7, 0x7d, 0x80, 0xe0b62e2929aba83c, 0x331acdabfe94de87,
      0x1ee556e118f0bc537, 0x104ed4b45b4e63793, 0xd8f5451739c977, 0x7284a8ce8cec4c)
    case 4 => Cut(-11, 4, 10, 0x271, 0x400, 0x8c71dcd9ba0b4925, 0x9ff0c08b7f1d0b14,
      0x1574815cce7db5f75, 0xb29280be81f10fb1, 0x5e2a0d71cb4732, 0x30fbc59064e02d)
    case 5 => Cut(-11, 5, 12, 0xc35, 0x1000, 0xaf8e5410288e1b6f, 0x7ecf0ae5ee44dd9,
      0x10a4eb73a42450c69, 0x8c15d1752f25e62b, 0x5b4fef2e8c6c54, 0x30086624a541e3)
    case 6 => Cut(-11, 6, 14, 0x3d09, 0x4000, 0xdb71e91432b1a24a, 0xc9e82cd9f69d6150,
      0x4153d5450d8b02efb, 0x33aa5fd0efedca515, 0x1bffe476d5548e5, 0x1624de9b169d0d8)
    case 7 => Cut(-11, 7, 17, 0x1312d, 0x20000, 0x892731ac9faf056e, 0xbe311c083a225cd2,
      0x3f3108942286960b4, 0x33aa5fd0efedca515, 0x10ed75294a06079, 0xdd70b20ee22287)
    case 8 => Cut(-11, 8, 19, 0x5f5e1, 0x80000, 0xab70fe17c79ac6ca, 0x6dbd630a48aaf406,
      0x1285b110e5a863be1, 0x487a0757f8933b5d, 0x633bd130f77601, 0x1844c01d6424dc)
    case 9 => Cut(-11, 9, 21, 0x1dcd65, 0x200000, 0xd64d3d9db981787d, 0x92cbbccdad5b108,
      0x101b8b30695ef9144, 0xe7ece44cb50a579, 0x6bdf141e930045, 0x6113007590937)
    case 10 => Cut(-11, 10, 24, 0x9502f9, 0x1000000, 0x85f0468293f0eb4e, 0x25bbf56008c58ea5,
      0x158599da228f35ecd, 0x73f672265a852bc8, 0x5a14e0e096745f, 0x1e55f024bd2e13)
    case 11 => Cut(-11, 11, 26, 0x2e90edd, 0x4000000, 0xa76c582338ed2621, 0xaf2af2b80af6f24e,
      0x4d85e293e5b24f631, 0x4aab0ba2598421f30, 0x195992fd60d5122, 0x186a973a716ff8f)
    case 12 => Cut(-11, 12, 28, 0xe8d4a51, 0x10000000, 0xd1476e2c07286faa, 0x1af5af660db4aee1,
      0x177f8728500b5be73, 0xc142b621f52a626f, 0x99ad5e99e171cb, 0x4efeb1af11d9ec)
    case 13 => Cut(-11, 13, 31, 0x48c27395, 0x80000000, 0x82cca4db847945ca, 0x50d98d9fc890ed4d,
      0x131aa940e4603644f, 0x4d4de273fbaa8dc6, 0x4e167bfa4e7009, 0x13bfac6bc4767b)
  }

  function FromMinus294(i: nat): (r: Row)
    requires i < 14
    ensures IsRow(-294 + i, r)
  {
    hide IsRow;
    match i
    case 0 => Cut(-11, 14, 33, 0x16bcc41e9, 0x200000000, 0xa37fce126597973c, 0xe50ff107bab528a0,
      0x10348a5c8af0375a5, 0x3dd7e85cc9553e38, 0x52cc59a80eb32f, 0x13bfac6bc4767b)
    case 1 => Cut(-11, 15, 35, 0x71afd498d, 0x800000000, 0xcc5fc196fefd7d0c, 0x1e53ed49a96272c8,
      0x1b349283436779949, 0xf75fa1732554f8e0, 0xadc08ead364305, 0x62be5e1ad65067)
    case 2 => Cut(-11, 16, 37, 0x2386f26fc1, 0x2000000000, 0xff77b1fcbebcdc4f, 0x25e8e89c13bb0f7a,
      0x51bb258616a77628fa, 0x51329d5dc1fb807225, 0x28c7d0990bfa96e9, 0x2883b0ddd9f7720e)
    case 3 => Cut(-11, 17, 40, 0xb1a2bc2ec5, 0x10000000000, 0x9faacf3df73609b1, 0x77b191618c54e9ac,
      0x10a4f3b2a2acc4021, 0x1b0455fcb47cb624, 0x530c72f980bc11, 0x86cdc140cc803)
    case 4 => Cut(-11, 18, 42, 0x3782dace9d9, 0x40000000000, 0xc795830d75038c1d, 0xd59df5b9ef6a2417,
      0x10fb67f8fe87ecaf5, 0x159d1196f6ca2b50, 0x69eac6bce41d16, 0x86cdc140cc803)
    case 5 => Cut(-11, 19, 44, 0x1158e460913d, 0x100000000000, 0xf97ae3d0d2446f25, 0x4b0573286b44ad1d,
      0x1237949bb25bb14a6, 0x3efced592ad0a051, 0x8e0671f33c9b9b, 0x1eb11fb93f6b47)
    case 6 => Cut(-11, 20, 47, 0x56bc75e2d631, 0x800000000000, 0x9becce62836ac577, 0x4ee367f9430aec32,
      0xc7a5b01882c4d9514, 0xc1a449793a4aafd8f, 0x3cccffa8aab1f6b, 0x3af8cc066cbc3bd)
    case 7 => Cut(-11, 21, 49, 0x1b1ae4d6e2ef5, 0x2000000000000, 0xc2e801fb244576d5, 0x229c41f793cda73f,
      0x58443c8266935dc8f, 0x4c416f43d59f0ad85, 0x2199da3041c7026, 0x1d07591aa6e0af3)
    case 8 => Cut(-11, 22, 51, 0x878678326eac9, 0x8000000000000, 0xf3a20279ed56d48a, 0x6b43527578c1110f,
      0x16752affe818cd887, 0x13544c0574791cd6d, 0xaafb716dde4ea3, 0x9329fd8932f1ea)
    case 9 => Cut(-11, 23, 54, 0x2a5a058fc295ed, 0x40000000000000, 0x9845418c345644d6, 0x830a13896b78aaa9,
      0x23eeab330cf47c0d8, 0x1c4ff6d237b63bda3, 0xaafb716dde4ea3, 0x86b91ad1376adb)
    case 10 => Cut(-11, 24, 56, 0xd3c21bcecceda1, 0x100000000000000, 0xbe5691ef416bd60c, 0x23cc986bc656d553,
      0x1e45136f683670151, 0x16a65f0e92f82fe1c, 0xb40c0715080795, 0x86b91ad1376adb)
    case 11 => Cut(-11, 25, 58, 0x422ca8b0a00a425, 0x400000000000000, 0xedec366b11c6cb8f, 0x2cbfbe86b7ec8aa8,
      0x10ae0d99dcd4b9c0d, 0x170a4d83258395a3, 0x7c0434bd607956, 0xab4e613d6f185)
    case 12 => Cut(-11, 26, 61, 0x14adf4b7320334b9, 0x2000000000000000, 0x94b3a202eb1c3f39, 0x7bf7d71432f3d6a9,
      0x13c6981ba2e015ea0, 0x3e977dba6b43c177, 0x5be58281dba4c7, 0x122dc01ca1cb8c)
    case 13 => Cut(-11, 27, 63, 0x6765c793fa10079d, 0x8000000000000000, 0xb9e08a83a5e34f07, 0xdaf5ccd93fb0cc53,
      0x1082e2b4203c96310, 0xc84b2bee240c04b, 0x5fe88a4ca650f3, 0x48b70072872e3)
  }

  function FromMinus280(i: nat): (r: Row)
    requires i < 14
    ensures IsRow(-280 + i, r)
  {
    hide IsRow;
    match i
    case 0 => Cut(-10, 0, 0, 0x1, 0x1, 0xe858ad248f5c22c9, 0xd1b3400f8f9cff68,
      0x104a4063aac8e58ad, 0x3212cafb8903012c, 0x76477727b0e423, 0x16b93023ca3e6f)
    case 1 => Cut(-10, 1, 3, 0x5, 0x8, 0x91376c36d99995be, 0x23100809b9c21fa1,
      0x236fc8431cb07a537, 0x14286495a065fe4dd, 0xa0cfe3664ed586, 0x5b79f15dc0af3b)
    case 2 => Cut(-10, 2, 5, 0x19, 0x20, 0xb58547448ffffb2d, 0xabd40a0c2832a78a,
      0x1d5339fdb7c5e2513, 0x111a1d72edf0b24cb, 0xa658e33b9b77c2, 0x6102f1330d5177)
    case 3 => Cut(-10, 3, 7, 0x7d, 0x80, 0xe2e69915b3fff9f9, 0x16c90c8f323f516c,
      0x2fe55cf793a88429f, 0x252445f3b7c543b18, 0x1539d0641d6ba4f, 0x1075bd46ea8c939)
    case 4 => Cut(-10, 4, 10, 0x271, 0x400, 0x8dd01fad907ffc3b, 0xae3da7d97f6792e3,
      0x1101ed62424927f8b, 0x8016c17574e76085, 0x4b5f1b560ff071, 0x237a55723cf69c)
    case 5 => Cut(-10, 5, 12, 0xc35, 0x1000, 0xb1442798f49ffb4a, 0x99cd11cfdf41779c,
      0x15c27f7c4850595761, 0x14e8cd375e997dbe25, 0x788a296365aaf4c, 0x73d437ae04abedb)
    case 6 => Cut(-10, 6, 14, 0x3d09, 0x4000, 0xdd95317f31c7fa1d, 0x40405643d711d583,
      0x1514574526f1434331, 0x14662f0e05922d2f01, 0x91f6c206de16aae, 0x8d40d0517d17a3d)
    case 7 => Cut(-10, 7, 17, 0x1312d, 0x20000, 0x8a7d3eef7f1cfc52, 0x482835ea666b2572,
      0x1c6536745b57883a9, 0x138fa1b41c112b49d, 0x7ae39e0b1ea9d8, 0x54a7f8e110581f)
    case 8 => Cut(-10, 8, 19, 0x5f5e1, 0x80000, 0xad1c8eab5ee43b66, 0xda3243650005eecf,
      0x6aa3bd44cb9c3561d, 0x64f5e593ec8ab3bc8, 0x240e461f3380ce9, 0x2222b7a70706273)
    case 9 => Cut(-10, 9, 21, 0x1dcd65, 0x200000, 0xd863b256369d4a40, 0x90bed43e40076a82,
      0x2e103385a415c98a5, 0x22b48423e5f2c63fb, 0x1377cde9bb1c64d, 0xeaae9bd4be9c26)
    case 10 => Cut(-10, 10, 24, 0x9502f9, 0x1000000, 0x873e4f75e2224e68, 0x5a7744a6e804a291,
      0x1492201612275eccb, 0xbfd256069acbfaa7, 0x56f0858fce3322, 0x32ab4dec472ce7)
    case 11 => Cut(-10, 11, 26, 0x2e90edd, 0x4000000, 0xa90de3535aaae202, 0x711515d0a205cb36,
      0x17527bd62ee7fe58c, 0x8e8e22afab35fa05, 0x7b35bd3355395d, 0x2f11c85a17233c)
    case 12 => Cut(-10, 12, 28, 0xe8d4a51, 0x10000000, 0xd3515c2831559a83, 0xd5a5b44ca873e03,
      0x10e035d5f3628526f, 0x8e8e22afab35fa05, 0x6f714b1ccf708e, 0x3ad63a709cec0b)
    case 13 => Cut(-10, 13, 31, 0x48c27395, 0x80000000, 0x8412d9991ed58091, 0xe858790afe9486c2,
      0x1b30a5d6529e7a437, 0xe111a2b2a515a2e9, 0x7038b0555cbd7f, 0x3a0ed5380f9f1a)
  }

  function FromMinus266(i: nat): (r: Row)
    requires i < 14
    ensures IsRow(-266 + i, r)
  {
    hide IsRow;
    match i
    case 0 => Cut(-10, 14, 33, 0x16bcc41e9, 0x200000000, 0xa5178fff668ae0b6, 0x626e974dbe39a872,
      0x128facd605a005559, 0x330d7d56fab8fad3, 0x5fc27df9f7955e, 0x1076325b652821)
    case 1 => Cut(-10, 15, 35, 0x71afd498d, 0x800000000, 0xce5d73ff402d98e3, 0xfb0a3d212dc8128f,
      0x1148f01a3f5b6576b, 0x28d79778c893fbdc, 0x6f78044ac2e6a5, 0x1076325b652821)
    case 2 => Cut(-10, 16, 38, 0x2386f26fc1, 0x4000000000, 0x80fa687f881c7f8e, 0x7ce66634bc9d0b99,
      0x18f15c80e4f724aff, 0x130cc6a637097bff9, 0x6488a11a177b65, 0x4cc82c9e400bc4)
    case 3 => Cut(-10, 17, 40, 0xb1a2bc2ec5, 0x10000000000, 0xa139029f6a239f72, 0x1c1fffc1ebc44e80,
      0x17c3a4eec22e02f31, 0x130cc6a637097bff9, 0x77baac41a77e56, 0x5ffa37c5d00eb5)
    case 4 => Cut(-10, 18, 42, 0x3782dace9d9, 0x40000000000, 0xc987434744ac874e, 0xa327ffb266b56220,
      0x19a6643ef9d638ee1, 0x15e0e59e8a85ccf81, 0xa189918ffd15bc, 0x89c91d1425a61b)
    case 5 => Cut(-10, 19, 44, 0x1158e460913d, 0x100000000000, 0xfbe9141915d7a922, 0x4bf1ff9f0062baa8,
      0x16a1fef1d3fc48f61, 0x139d99a4ae2258fe1, 0xb22b817824eb8a, 0x9a6b0cfc4d7be9)
    case 6 => Cut(-10, 20, 47, 0x56bc75e2d631, 0x800000000000, 0x9d71ac8fada6c9b5, 0x6f773fc3603db4a9,
      0x121b325b0ffd072b4, 0x10993457884869061, 0x5915c0bc1275c5, 0x51aa9f5049c7ad)
    case 7 => Cut(-10, 21, 49, 0x1b1ae4d6e2ef5, 0x2000000000000, 0xc4ce17b399107c22, 0xcb550fb4384d21d3,
      0x486cc96c3ff41cad0, 0x481f969ebe6996a59, 0x1bd6cc3ac5c4cd9, 0x1bb91fb516a2153)
    case 8 => Cut(-10, 22, 51, 0x878678326eac9, 0x8000000000000, 0xf6019da07f549b2b, 0x7e2a53a146606a48,
      0x1d26a240341b28b01, 0x1c8c3ca531061ca13, 0xe01a781a63c711, 0xdb778337065a42)
    case 9 => Cut(-10, 23, 54, 0x2a5a058fc295ed, 0x40000000000000, 0x99c102844f94e0fb, 0x2eda7444cbfc426d,
      0x1dc107db373034bef, 0x16d696ea8d9e7d4dc, 0x8ef6641e98c06c, 0x6dbbc19b832d21)
    case 10 => Cut(-10, 24, 56, 0xd3c21bcecceda1, 0x100000000000000, 0xc0314325637a1939, 0xfa911155fefb5308,
      0x1dc107db373034bef, 0x1838ad8115eed5313, 0xb2b3fd263ef087, 0x91795aa3295d3c)
    case 11 => Cut(-10, 25, 58, 0x422ca8b0a00a425, 0x400000000000000, 0xf03d93eebc589f88, 0x793555ab7eba27ca,
      0x265607fcd2e910831, 0x1838ad8115eed5313, 0x11fcf01209df674, 0xb5d7b14bf3b48b)
    case 12 => Cut(-10, 26, 61, 0x14adf4b7320334b9, 0x2000000000000000, 0x96267c7535b763b5, 0x4bc1558b2f3458de,
      0x121f61f220ffdcc47, 0xbb5bc67e75d40d9f, 0x5508e6df46eabe, 0x36f1f881e61b77)
    case 13 => Cut(-10, 27, 63, 0x6765c793fa10079d, 0x8000000000000000, 0xbbb01b9283253ca2, 0x9eb1aaedfb016f16,
      0x19fc216d7f61f344e, 0xa6d68190f0988117, 0x986864736fac4d, 0x3d28bb0b076e83)
  }

  function FromMinus252(i: nat): (r: Row)
    requires i < 14
    ensures IsRow(-252 + i, r)
  {
    hide IsRow;
    match i
    case 0 => Cut(-9, 0, 0, 0x1, 0x1, 0xea9c227723ee8bcb, 0x465e15a979c1cadc,
      0x108cd53fdaec3eaac, 0x7484eb482e24bde1, 0x795697c5c90d11, 0x356447df9dc6b4)
    case 1 => Cut(-9, 1, 3, 0x5, 0x8, 0x92a1958a7675175f, 0xbfacd89ec191ec9,
      0x1485c61acb9f4acd1, 0xe909d6905c497bc2, 0x5e09f8cea722b9, 0x42bd59d7853861)
    case 2 => Cut(-9, 2, 5, 0x19, 0x20, 0xb749faed14125d36, 0xcef980ec671f667b,
      0x471a621ba9a82f573, 0x3a4275a417125ef08, 0x1974342cae7ccdc, 0x14db2c1359a19e5)
    case 3 => Cut(-9, 3, 7, 0x7d, 0x80, 0xe51c79a85916f484, 0x82b7e12780e7401a,
      0x109a8a4ca445eab1d, 0x19012f85d8581855, 0x76e0b40d2f25ae, 0xb306bc2f70dc9)
    case 4 => Cut(-9, 4, 10, 0x271, 0x400, 0x8f31cc0937ae58d2, 0xd1b2ecb8b0908810,
      0x26674705d9a06c8d9, 0x1d10fba19c78ad250, 0xabd948645a1e26, 0x82111fd0263377)
    case 5 => Cut(-9, 5, 12, 0xc35, 0x1000, 0xb2fe3f0b8599ef07, 0x861fa7e6dcb4aa15,
      0x35f9ceec5e7a7af54, 0x2a8f6f5cb4174be25, 0x12dea683480519d, 0xee1001d14fd4bc)
    case 6 => Cut(-9, 6, 14, 0x3d09, 0x4000, 0xdfbdcece67006ac9, 0x67a791e093e1d49a,
      0x1a281298038bdd9ce, 0x10675cc4b08b6e457, 0xb6e2674bd8673f, 0x72b19af9cb62ac)
    case 7 => Cut(-9, 7, 17, 0x1312d, 0x20000, 0x8bd6a141006042bd, 0xe0c8bb2c5c6d24e0,
      0x107cbb21be7c60a06, 0x20a3fccf4534f7d5, 0x480c621310259f, 0x8ea33f4a5c2b7)
    case 8 => Cut(-9, 8, 19, 0x5f5e1, 0x80000, 0xaecc49914078536d, 0x58fae9f773886e18,
      0x101447f8c0d21d875, 0x1a1cca3f6a90c644, 0x57d4ed9aaabe59, 0x8ea33f4a5c2b7)
    case 9 => Cut(-9, 9, 21, 0x1dcd65, 0x200000, 0xda7f5bf590966848, 0xaf39a475506a899e,
      0x1067d74cbef3ecce9, 0x14e3d4ff8873d1d0, 0x7004b5fe7ede9d, 0x8ea33f4a5c2b7)
    case 10 => Cut(-9, 10, 24, 0x9502f9, 0x1000000, 0x888f99797a5e012d, 0x6d8406c952429603,
      0x10420c3086d483514, 0x6acfdac12c39b0e5, 0x4561a8ee381361, 0x1c7d2b2d5d383d)
    case 11 => Cut(-9, 11, 26, 0x2e90edd, 0x4000000, 0xaab37fd7d8f58178, 0xc8e5087ba6d33b83,
      0x144371315ee379f37, 0x5573156756948d84, 0x6c17f38bcc0267, 0x1c7d2b2d5d383d)
    case 12 => Cut(-9, 12, 28, 0xe8d4a51, 0x10000000, 0xd5605fcdcf32e1d6, 0xfb1e4a9a90880a64,
      0x3e5c13b0bbcc8f82d, 0x30b1a43e6f14c0cce, 0x19fd0b1fde0569a, 0x144b113f4db9777)
    case 13 => Cut(-9, 13, 31, 0x48c27395, 0x80000000, 0x855c3be0a17fcd26, 0x5cf2eea09a55067f,
      0x13a288fd108248c0d, 0x62844b93a5776ef4, 0x51d421632596a3, 0x19a91cece6ad07)
  }

  function FromMinus238(i: nat): (r: Row)
    requires i < 14
    ensures IsRow(-238 + i, r)
  {
    hide IsRow;
    match i
    case 0 => Cut(-9, 14, 33, 0x16bcc41e9, 0x200000000, 0xa6b34ad8c9dfc06f, 0xf42faa48c0ea481e,
      0x1267480b380a642a9, 0x4ed03c761df92590, 0x5fdee280b5510a, 0x19a91cece6ad07)
    case 1 => Cut(-9, 15, 35, 0x71afd498d, 0x800000000, 0xd0601d8efc57b08b, 0xf13b94daf124da26,
      0x1c414f99fbc988dc9, 0x1a8b75e77e20e2914, 0xb7fd63712355de, 0xacda394769581f)
    case 2 => Cut(-9, 16, 38, 0x2386f26fc1, 0x4000000000, 0x823c12795db6ce57, 0x76c53d08d6b70858,
      0x12a653382090719bb, 0x4f785a4334b3f413, 0x4be6b4b457e007, 0x1436e1e3b5eb4c)
    case 3 => Cut(-9, 17, 40, 0xb1a2bc2ec5, 0x10000000000, 0xa2cb1717b52481ed, 0x54768c4b0c64ca6e,
      0x10fba509627282476, 0xfe4deda3dbd9737, 0x5665bc1fe98c55, 0x50db878ed7ad3)
    case 4 => Cut(-9, 18, 42, 0x3782dace9d9, 0x40000000000, 0xcb7ddcdda26da268, 0xa9942f5dcf7dfd09,
      0x104f7c79990dbe849, 0x3f937b68f6f65cdc, 0x67b864b50d6efa, 0x19449a5ca3661f)
    case 5 => Cut(-9, 19, 44, 0x1158e460913d, 0x100000000000, 0xfe5d54150b090b02, 0xd3f93b35435d7c4c,
      0x119114a989609498d, 0xfe4deda3dbd97370, 0x8ba2cfce22a74a, 0x7e5703cf30fe9b)
    case 6 => Cut(-9, 20, 47, 0x56bc75e2d631, 0x800000000000, 0x9efa548d26e5a6e1, 0xc47bc5014a1a6daf,
      0x14e9804820a68f5c7, 0x9def6df9a925a349, 0x67e480df83bb69, 0x310a1aed909490)
    case 7 => Cut(-9, 21, 49, 0x1b1ae4d6e2ef5, 0x2000000000000, 0xc6b8e9b0709f109a, 0x359ab6419ca1091b,
      0x16a6fabfdd43759cb, 0x9def6df9a925a349, 0x8cac1511b02ad5, 0x3d4ca1a8f4b9b4)
    case 8 => Cut(-9, 22, 51, 0x878678326eac9, 0x8000000000000, 0xf867241c8cc6d4c0, 0xc30163d203c94b62,
      0x14189393032009bb1, 0x9def6df9a925a349, 0x9bff3d7bed5942, 0x4c9fca1331e821)
    case 9 => Cut(-9, 23, 54, 0x2a5a058fc295ed, 0x40000000000000, 0x9b407691d7fc44f8, 0x79e0de63425dcf1d,
      0x1013a94268e66e2f4, 0xfb9036e9aeb18dd5, 0x4dff9ebdf6aca1, 0x4c47d4e880b701)
    case 10 => Cut(-9, 24, 56, 0xd3c21bcecceda1, 0x100000000000000, 0xc21094364dfb5636, 0x985915fc12f542e4,
      0x195e68fcd9dbc1601, 0xc81e19485f036071, 0x99d9813119e63a, 0x4bd9e273233999)
    case 11 => Cut(-9, 25, 58, 0x422ca8b0a00a425, 0x400000000000000, 0xf294b943e17a2bc4, 0x3e6f5b7b17b2939d,
      0x32bcd1f9b3b782c02, 0x2884ed37002d57895, 0x1809fc2fac0bf91, 0x13329934f7eefb2)
    case 12 => Cut(-9, 26, 61, 0x14adf4b7320334b9, 0x2000000000000000, 0x979cf3ca6cec5b5a, 0xa705992ceecf9c42,
      0x14ca6f59350fabbf9, 0x80874ad707066d7e, 0x628136b08775b5, 0x260f4cfe3ed3fd)
    case 13 => Cut(-9, 27, 63, 0x6765c793fa10079d, 0x8000000000000000, 0xbd8430bd08277231, 0x50c6ff782a838353,
      0x132f24d01e92ca613, 0x66d2a2459f385798, 0x719db11d199e23, 0x260f4cfe3ed3fd)
  }

  function FromMinus224(i: nat): (r: Row)
    requires i < 14
    ensures IsRow(-224 + i, r)
  {
    hide IsRow;
    match i
    case 0 => Cut(-8, 0, 0, 0x1, 0x1, 0xece53cec4a314ebd, 0xa4f8bf5635246428,
      0x2912718a7ceb7902d, 0x23f32e8ccb3702a3e, 0x1300e3f8bbc7989, 0x10a230004e65d01)
    case 1 => Cut(-8, 1, 3, 0x5, 0x8, 0x940f4613ae5ed136, 0x871b7795e136be99,
      0x41b71c10c7df28048, 0x3c97d913162ab1a59, 0x1300e3f8bbc7989, 0x1185b37d776a7b4)
    case 2 => Cut(-8, 2, 5, 0x19, 0x20, 0xb913179899f68584, 0x28e2557b59846e3f,
      0x1090b22278507358f, 0x3ec59d44e816622d, 0x5fce67f80b12e6, 0x16b0be8d520643)
    case 3 => Cut(-8, 3, 7, 0x7d, 0x80, 0xe757dd7ec07426e5, 0x331aeada2fe589cf,
      0x11c91e8a186644ae3, 0xb28d7491b7949bdd, 0x8094aa5b555dd4, 0x50ad765f4fd461)
    case 4 => Cut(-8, 4, 10, 0x271, 0x400, 0x9096ea6f3848984f, 0x3ff0d2c85def7621,
      0x17162457af8a40a1b, 0xc7c18bc814248bab, 0x68508477181f5e, 0x3869507b1295eb)
    case 5 => Cut(-8, 5, 12, 0xc35, 0x1000, 0xb4bca50b065abe63, 0xfed077a756b53a9,
      0x12d886199d0710abb, 0xa5d499d7800b0bfb, 0x6a710b96db627c, 0x3a89d79ad5d909)
    case 6 => Cut(-8, 6, 14, 0x3d09, 0x4000, 0xe1ebce4dc7f16dfb, 0xd3e8495912c62894,
      0x2045f2694eeb4cd7ee, 0x2009a3ef635b363c2f, 0xe3d9a23162bdb6f, 0xe22fde0307502d0)
    case 7 => Cut(-8, 7, 17, 0x1312d, 0x20000, 0x8d3360f09cf6e4bd, 0x64712dd7abbbd95c,
      0x1e273cf5c80b4ddf8, 0x181f3ae569067caeb, 0x850d4e7c923b1b, 0x6a70565bc5a047)
    case 8 => Cut(-8, 8, 19, 0x5f5e1, 0x80000, 0xb080392cc4349dec, 0xbd8d794d96aacfb3,
      0x1bbdcb9b3f725569b, 0x15b5c98ae06d8438e, 0x990308952baf3a, 0x77bed26c2bedb1)
    case 9 => Cut(-8, 9, 21, 0x1dcd65, 0x200000, 0xdca04777f541c567, 0xecf0d7a0fc5583a0,
      0x11da8543aeb63059a, 0x322c17ee6ae8a34d, 0x7b17c0ab68b199, 0x159ea710cb0b0a)
    case 10 => Cut(-8, 10, 24, 0x9502f9, 0x1000000, 0x89e42caaf9491b60, 0xf41686c49db57244,
      0x1590e296049ef57d3, 0xc8b05fb9aba28d34, 0x5cee107b21ec23, 0x360ca1a9fb9b99)
    case 11 => Cut(-8, 11, 26, 0x2e90edd, 0x4000000, 0xac5d37d5b79b6239, 0x311c2875c522ced5,
      0x120bb934d3c99953e, 0x3366fdf5be980ff5, 0x6133950adfc959, 0x114df520b439aa)
    case 12 => Cut(-8, 12, 28, 0xe8d4a51, 0x10000000, 0xd77485cb25823ac7, 0x7d633293366b828b,
      0x18b793c1cf8c7dda8, 0xf9239c043afbfec9, 0xa66b698db0b001, 0x68d7272fb9a015)
    case 13 => Cut(-8, 13, 31, 0x48c27395, 0x80000000, 0x86a8d39ef77164bc, 0xae5dff9c02033197,
      0x124ab40317b97bdbe, 0xaa0b5ccb3c6d9f41, 0x4cf952f574d3e7, 0x2cb90b4c1dee0d)
  }

  function FromMinus210(i: nat): (r: Row)
    requires i < 14
    ensures IsRow(-210 + i, r)
  {
    hide IsRow;
    match i
    case 0 => Cut(-8, 14, 33, 0x16bcc41e9, 0x200000000, 0xa8530886b54dbdeb, 0xd9f57f830283fdfc,
      0x19da9dba09ec150cd, 0x16c9d1a44857d449b, 0x87fed1fd4bff84, 0x77deae28a08c97)
    case 1 => Cut(-8, 15, 35, 0x71afd498d, 0x800000000, 0xd267caa862a12d66, 0xd072df63c324fd7b,
      0x11f701e76d9dda0a3, 0x7e39bd29c4e3b02a, 0x761f4152a47290, 0x33df4529fa8cd5)
    case 2 => Cut(-8, 16, 38, 0x2386f26fc1, 0x4000000000, 0x8380dea93da4bc60, 0x4247cb9e59f71e6d,
      0x11f701e76d9dda0a3, 0x10372ce5a99cbd397, 0x49d388d3a6c79a, 0x42a32d544f1b27)
    case 3 => Cut(-8, 17, 40, 0xb1a2bc2ec5, 0x10000000000, 0xa46116538d0deb78, 0x52d9be85f074e608,
      0x1b582570df62129c8, 0x170d3641e17541e09, 0x8c76b627f5e2c1, 0x7669a633605aa1)
    case 4 => Cut(-8, 18, 42, 0x3782dace9d9, 0x40000000000, 0xcd795be870516656, 0x67902e276c921f8b,
      0x16bbe763b24a9f093, 0x1270f834b45dce4d4, 0x91f9fa251b44c9, 0x7669a633605aa1)
    case 5 => Cut(-8, 19, 45, 0x1158e460913d, 0x200000000000, 0x806bd9714632dff6, 0xba1cd8a3db53b6,
      0x26176b7f1c6fb859e, 0x21cc7c501e82e79df, 0x98de0f2189ff53, 0x87a3daaa752cfa)
    case 6 => Cut(-8, 20, 47, 0x56bc75e2d631, 0x800000000000, 0xa086cfcd97bf97f3, 0x80e8a40eccd228a4,
      0x112bbcbbf7b342efc, 0x50aec63a088413ad, 0x56230653681bbd, 0x194bdc6f12e212)
    case 7 => Cut(-8, 21, 49, 0x1b1ae4d6e2ef5, 0x2000000000000, 0xc8a883c0fdaf7df0, 0x6122cd128006b2cd,
      0x18036f3784e3c55b1, 0xa15d8c741108275a, 0x9693ec01c44eab, 0x3f3da715af352d)
    case 8 => Cut(-8, 22, 51, 0x878678326eac9, 0x8000000000000, 0xfad2a4b13d1b5d6c, 0x796b805720085f81,
      0x150951ad9342776df, 0x6d1db32f4640e5cf, 0xa4e3478857dec5, 0x357464c5dce0f6)
    case 9 => Cut(-8, 23, 54, 0x2a5a058fc295ed, 0x40000000000000, 0x9cc3a6eec6311a63, 0xcbe3303674053bb0,
      0x2a8368aa9a7544631, 0x1b476ccbd1903973c, 0xd0448ccc6836b2, 0x85a2fbeea83267)
    case 10 => Cut(-8, 24, 56, 0xd3c21bcecceda1, 0x100000000000000, 0xc3f490aa77bd60fc, 0xbedbfc4411068a9c,
      0x309b6703b79daf293, 0x246b6a517d4cd99cf, 0x129a6786e624684, 0xdf04e790a24239)
    case 11 => Cut(-8, 25, 58, 0x422ca8b0a00a425, 0x400000000000000, 0xf4f1b4d515acb93b, 0xee92fb5515482d44,
      0x138749de3408dd7b9, 0x9b15f0c81319b39e, 0x957b147da77b40, 0x4a31ab59711ef7)
    case 12 => Cut(-8, 26, 61, 0x14adf4b7320334b9, 0x2000000000000000, 0x991711052d8bf3c5, 0x751bdd152d4d1c4a,
      0x138749de3408dd7b9, 0x3ca9ef515e3a6ac1, 0x5d6cecce88ad08, 0x122383aa5250bf)
    case 13 => Cut(-8, 27, 63, 0x6765c793fa10079d, 0x8000000000000000, 0xbf5cd54678eef0b6, 0xd262d45a78a0635d,
      0x107ecab3bc1f8b585, 0x3087f2a77e952234, 0x62a4a457d8878b, 0x122383aa5250bf)
  }

  function FromMinus196(i: nat): (r: Row)
    requires i < 14
    ensures IsRow(-196 + i, r)
  {
    hide IsRow;
    match i
    case 0 => Cut(-7, 0, 0, 0x1, 0x1, 0xef340a98172aace4, 0x86fb897116c87c34,
      0x120ca0d3bcc1bfb24, 0x78ba75f6719c20fd, 0x86ebabac7d2909, 0x38674f80062f31)
    case 1 => Cut(-7, 1, 3, 0x5, 0x8, 0x9580869f0e7aac0e, 0xd45d35e6ae3d4da0,
      0x1ce10152c79c65ea0, 0x126007de71f468479, 0x86ebabac7d2909, 0x55d8f210b2cce2)
    case 2 => Cut(-7, 2, 5, 0x19, 0x20, 0xbae0a846d2195712, 0x8974836059cca109,
      0x2654698fd31fc25a5, 0x25cda0f42e0d71c14, 0xdfd7be06e870c6, 0xdcc49dbd2ff5eb)
    case 3 => Cut(-7, 3, 7, 0x7d, 0x80, 0xe998d258869facd7, 0x2bd1a438703fc94b,
      0x102c9e65c2f6ceb2a, 0x708bdfb9756c6273, 0x76121f96e52e19, 0x33593f132563e9)
    case 4 => Cut(-7, 4, 10, 0x271, 0x400, 0x91ff83775423cc06, 0x7b6306a34627ddcf,
      0x129116b4483e10ae4, 0x96d364a1c9e0822d, 0x54b5af55054901, 0x2b022302ad6aa3)
    case 5 => Cut(-7, 5, 12, 0xc35, 0x1000, 0xb67f6455292cbf08, 0x1a3bc84c17b1d542,
      0x1247c0d457401116e, 0x5994299475f3829d, 0x6840decddbabeb, 0x1fedf495ecace9)
    case 6 => Cut(-7, 6, 14, 0x3d09, 0x4000, 0xe41f3d6a7377eeca, 0x20caba5f1d9e4a93,
      0x1ff23ef75cefcac12, 0x1b2ba4ae3d3655b43, 0xe3bd309f838cf7, 0xc1b17bc69176c2)
    case 7 => Cut(-7, 7, 17, 0x1312d, 0x20000, 0x8e938662882af53e, 0x547eb47b7282ee9c,
      0x331d318bc7e611350, 0x27f2f1112f2fda017, 0xe3bd309f838cf7, 0xb1fe3983fbcd77)
    case 8 => Cut(-7, 8, 19, 0x5f5e1, 0x80000, 0xb23867fb2a35b28d, 0xe99e619a4f23aa43,
      0x26a881241afa02b9b, 0x1b7e40a98243cb862, 0xd74d72d8a19d17, 0x991ebdf637edb7)
    case 9 => Cut(-7, 9, 21, 0x1dcd65, 0x200000, 0xdec681f9f4c31f31, 0x6405fa00e2ec94d4,
      0x1eed341ce2619bc7c, 0x13c2f3a249ab64943, 0xd74d72d8a19d17, 0x899310bd9d81df)
    case 10 => Cut(-7, 10, 24, 0x9502f9, 0x1000000, 0x8b3c113c38f9f37e, 0xde83bc408dd3dd04,
      0x2f3fe015b211549bb, 0x24159f9b195b1d682, 0xcd9626954119b0, 0x9d01a9445e88ad)
    case 11 => Cut(-7, 11, 26, 0x2e90edd, 0x4000000, 0xae0b158b4738705e, 0x9624ab50b148d445,
      0x1e488cbd56782d6ce4, 0x1db159f0443e5c5e25, 0xa4b4fa995229291, 0xa17ea1fefd24c25)
    case 12 => Cut(-7, 12, 28, 0xe8d4a51, 0x10000000, 0xd98ddaee19068c76, 0x3badd624dd9b0957,
      0x799b2866354229bf5c, 0x797ceb09fe69ccbc69, 0x33abf3d98efd2341, 0x339f1a7725a911a6)
    case 13 => Cut(-7, 13, 31, 0x48c27395, 0x80000000, 0x87f8a8d4cfa417c9, 0xe54ca5d70a80e5d6,
      0x180fb44991fe08862f, 0x171dc967db3b206e97, 0x663d393e10c0c33, 0x62394a7d267b42c)
  }

  function FromMinus182(i: nat): (r: Row)
    requires i < 14
    ensures IsRow(-182 + i, r)
  {
    hide IsRow;
    match i
    case 0 => Cut(-7, 14, 33, 0x16bcc41e9, 0x200000000, 0xa9f6d30a038d1dbc, 0x5e9fcf4ccd211f4c,
      0x112b79b9380be9aab, 0x165a72f1caac71ab, 0x5b320a4df9f8e4, 0x76ba19cbfdce1)
    case 1 => Cut(-7, 15, 35, 0x71afd498d, 0x800000000, 0xd47487cc8470652b, 0x7647c3200069671f,
      0x100d5a605450172ef, 0x11e1f58e3bbd27bc, 0x6a92eb44b89a3c, 0x76ba19cbfdce1)
    case 2 => Cut(-7, 16, 38, 0x2386f26fc1, 0x4000000000, 0x84c8d4dfd2c63f3b, 0x29ecd9f40041e073,
      0x2ed19adb4e8dde0ac, 0x255972d642620b7f9, 0xc246744499b1d1, 0x9afb6137631976)
    case 3 => Cut(-7, 17, 40, 0xb1a2bc2ec5, 0x10000000000, 0xa5fb0a17c777cf09, 0xf468107100525890,
      0x1a689a34f26b40fcb, 0xef09455b42737cca, 0x88fa87eee14341, 0x4d7db09bb18cbb)
    case 4 => Cut(-7, 18, 42, 0x3782dace9d9, 0x40000000000, 0xcf79cc9db955c2cc, 0x7182148d4066eeb4,
      0x1171dace532085e85, 0xbf3a9de29b8f9708, 0x711ae575d46a85, 0x4d7db09bb18cbb)
    case 5 => Cut(-7, 19, 45, 0x1158e460913d, 0x200000000000, 0x81ac1fe293d599bf, 0xc6f14cd848405530,
      0x190090b92886a8929, 0x149b9cc5d433d1cc5, 0x6550c35de24ba3, 0x538228f0d0dcbe)
    case 6 => Cut(-7, 20, 47, 0x56bc75e2d631, 0x800000000000, 0xa21727db38cb002f, 0xb8ada00e5a506a7c,
      0x1193cfcd514b5b190, 0x25d242ca24fa0d99, 0x59090421572a79, 0xbf93d05ab7fbd)
    case 7 => Cut(-7, 21, 49, 0x1b1ae4d6e2ef5, 0x2000000000000, 0xca9cf1d206fdc03b, 0xa6d90811f0e4851c,
      0x10b141227062a5ab1, 0x8b745f1a88b0db07, 0x69b0c96b6ebf01, 0x372fa8d7ed69e6)
    case 8 => Cut(-7, 22, 51, 0x878678326eac9, 0x8000000000000, 0xfd442e4688bd304a, 0x908f4a166d1da663,
      0x70af127314ed3c066, 0x64c701a11c7257f1b, 0x37bd840d91d0027, 0x31d9c1d8173913a)
    case 9 => Cut(-7, 23, 54, 0x2a5a058fc295ed, 0x40000000000000, 0x9e4a9cec15763e2e, 0x9a598e4e043287fe,
      0x1249a692985a90dd3, 0xbbc3eaeea39ffc8a, 0x5a764a72faba85, 0x3a0cd25cdebdeb)
    case 10 => Cut(-7, 24, 56, 0xd3c21bcecceda1, 0x100000000000000, 0xc5dd44271ad3cdba, 0x40eff1e1853f29fd,
      0x107d074630b838421, 0x362377ed4771618f, 0x65f3b7602e5750, 0x14ec0b28e85fcf)
    case 11 => Cut(-7, 25, 58, 0x422ca8b0a00a425, 0x400000000000000, 0xf7549530e188c128, 0xd12bee59e68ef47c,
      0x154fbe355817953d8, 0x8b6270c2a7cfb685, 0xa4b7d8dae776bd, 0x43550429dc5572)
    case 12 => Cut(-7, 26, 61, 0x14adf4b7320334b9, 0x2000000000000000, 0x9a94dd3e8cf578b9, 0x82bb74f8301958ce,
      0x3e596336bd032c4fa, 0x3098ffb3b37b8cf87, 0x12d3039f57fd111, 0xeac2622f135357)
    case 13 => Cut(-7, 27, 63, 0x6765c793fa10079d, 0x8000000000000000, 0xc13a148e3032d6e7, 0xe36a52363c1faf01,
      0x1b80c706130f3eae6, 0x16307a2ee34c8b74d, 0xa6129b700f3a51, 0x85fca70924c91a)
  }

  function FromMinus168(i: nat): (r: Row)
    requires i < 14
    ensures IsRow(-168 + i, r)
  {
    hide IsRow;
    match i
    case 0 => Cut(-6, 0, 0, 0x1, 0x1, 0xf18899b1bc3f8ca1, 0xdc44e6c3cb279ac1,
      0x10a13ff623ee57b26, 0x24ff9b34d8e3a99f, 0x7d8566e4ec42bd, 0x11742f8ed3f9ab)
    case 1 => Cut(-6, 1, 3, 0x5, 0x8, 0x96f5600f15a7b7e5, 0x29ab103a5ef8c0b9,
      0x1a2a2d7ace0c353a3, 0xee353b1be2a03589, 0x7b6e56a6b7fd53, 0x463bc17af3f48e)
    case 2 => Cut(-6, 2, 5, 0x19, 0x20, 0xbcb2b812db11a5de, 0x7415d448f6b6f0e7,
      0x23e88db09735ed6ce, 0x2260141d507d73bdf, 0xd3becc8ff6005f, 0xcab47258d0f920)
    case 3 => Cut(-6, 3, 7, 0x7d, 0x80, 0xebdf661791d60f56, 0x111b495b3464ad21,
      0x15da06edcf4540645, 0xc860d2f81383359a, 0xa111aff9c1c217, 0x5c4fdef5437551)
    case 4 => Cut(-6, 4, 10, 0x271, 0x400, 0x936b9fcebb25c995, 0xcab10dd900beec34,
      0x15366970c5096bee2, 0xd29aaac8b7407cfd, 0x61b94c3e00743d, 0x3ca3ad1762ce64)
    case 5 => Cut(-6, 5, 12, 0xc35, 0x1000, 0xb84687c269ef3bfb, 0x3d5d514f40eea742,
      0x10f8545a373abcbe8, 0xd29aaac8b7407cfd, 0x61b94c3e00743d, 0x4bcc985d3b81fd)
    case 6 => Cut(-6, 6, 14, 0x3d09, 0x4000, 0xe65829b3046b0afa, 0xcb4a5a3112a5112,
      0x1be9dc197ab8ebc6f, 0xc0d9935e7791b6c2, 0xc8edc57432250a, 0x56c2f24d9dfb1d)
    case 7 => Cut(-6, 7, 17, 0x1312d, 0x20000, 0x8ff71a0fe2c2e6dc, 0x47f0e785eaba72ab,
      0x17179ed0b7bbad9bb, 0x1348f5230bf4f8ad0, 0x67e3ded537d85f, 0x56c2f24d9dfb1d)
    case 8 => Cut(-6, 8, 19, 0x5f5e1, 0x80000, 0xb3f4e093db73a093, 0x59ed216765690f56,
      0x158506cb82ceb53b8, 0x6f3d9b815a0a5af1, 0x7904cb5cd1b5a1, 0x27193e04e8863e)
    case 9 => Cut(-6, 9, 21, 0x1dcd65, 0x200000, 0xe0f218b8d25088b8, 0x306869c13ec3532c,
      0x2776be23144109930, 0x1aaf38c99fc12a789, 0x11569c37073ce99, 0xbb946f3e5c8f1a)
    case 10 => Cut(-6, 10, 24, 0x9502f9, 0x1000000, 0x8c974f7383725573, 0x1e414218c73a13fb,
      0x8a15720ad112024a5, 0x7fa297beb5b83a27a, 0x25eaabef8db8b0a, 0x230c2dc048a2947)
    case 11 => Cut(-6, 11, 26, 0x2e90edd, 0x4000000, 0xafbd2350644eeacf, 0xe5d1929ef90898fa,
      0x2827b65d7dd5bd6bb, 0x2684038a8e445a4ca, 0xdc86842cb0f567, 0xd3859993cb01ff)
    case 12 => Cut(-6, 12, 28, 0xe8d4a51, 0x10000000, 0xdbac6c247d62a583, 0xdf45f746b74abf39,
      0x20c7a638c47ebf2f6, 0x1f23f365d4ed5c105, 0xe106f97923ef1b, 0xd5c5d43a047ed9)
    case 13 => Cut(-6, 13, 31, 0x48c27395, 0x80000000, 0x894bc396ce5da772, 0x6b8bba8c328eb783,
      0x64f60055029f0f804, 0x578566e0ea827c00b, 0x1b12c3b1398b5d3, 0x17782580d6bcc04)
  }

  function FromMinus154(i: nat): (r: Row)
    requires i < 14
    ensures IsRow(-154 + i, r)
  {
    hide IsRow;
    match i
    case 0 => Cut(-6, 14, 33, 0x16bcc41e9, 0x200000000, 0xab9eb47c81f5114f, 0x66ea92f3f326564,
      0x12c03ca99c3e1c646, 0x11811493621a18ccf, 0x649043182aab09, 0x5de096035af301)
    case 1 => Cut(-6, 15, 35, 0x71afd498d, 0x800000000, 0xd686619ba27255a2, 0xc80a537b0efefebd,
      0x1d40e29ba3e75e78f, 0xe00dd42b4e1ad70c, 0xc41cc460b98c0c, 0x5de096035af301)
    case 2 => Cut(-6, 16, 38, 0x2386f26fc1, 0x4000000000, 0x8613fd0145877585, 0xbd06742ce95f5f36,
      0x150af83538560f8a3, 0x55a1d496fecab0ed, 0x582b1441cbf716, 0x166cb2759647ff)
    case 3 => Cut(-6, 17, 40, 0xb1a2bc2ec5, 0x10000000000, 0xa798fc4196e952e7, 0x2c48113823b73704,
      0x510ef2cf05c344538, 0x42255364b43f1e4d7, 0x1a88989259a2f07, 0x15a6f05ef2f7d44)
    case 4 => Cut(-6, 18, 42, 0x3782dace9d9, 0x40000000000, 0xd17f3b51fca3a7a0, 0xf75a15862ca504c5,
      0x4e136c868f0f3cb8b, 0x42255364b43f1e4d7, 0x1ff254aa1660e58, 0x1b10ac76afb5c95)
    case 5 => Cut(-6, 19, 45, 0x1158e460913d, 0x200000000000, 0x82ef85133de648c4, 0x9a984d73dbe722fb,
      0x4e136c868f0f3cb8b, 0x4a9a5a04e72bb1cba, 0x13f774ea4dfc8f7, 0x1314174c2a1d8ff)
    case 6 => Cut(-6, 20, 47, 0x56bc75e2d631, 0x800000000000, 0xa3ab66580d5fdaf5, 0xc13e60d0d2e0ebba,
      0x3fd9916c4f3401bf6, 0x3c607eeaa75076d25, 0x146923b95fec0f3, 0x134ceeb3b3154fd)
    case 7 => Cut(-6, 21, 49, 0x1b1ae4d6e2ef5, 0x2000000000000, 0xcc963fee10b7d1b3, 0x318df905079926a8,
      0x1a3c0aaba7a8b6159, 0x1349e5a857e1a03b7, 0xa7b9f1e1b2bb77, 0x7b51a8feb12d90)
    case 8 => Cut(-6, 22, 51, 0x878678326eac9, 0x8000000000000, 0xffbbcfe994e5c61f, 0xfdf17746497f7052,
      0x261e165761140349d, 0x1cb3fdffdc7ad1c2a, 0x1309f7983b92b8a, 0xe562c6610b523f)
    case 9 => Cut(-6, 23, 54, 0x2a5a058fc295ed, 0x40000000000000, 0x9fd561f1fd0f9bd3, 0xfeb6ea8bedefa633,
      0x319948bdb94523fe1, 0x2decc99960c482d10, 0xf7bc5d8a968fc6, 0xe562c6610b523f)
    case 10 => Cut(-6, 24, 56, 0xd3c21bcecceda1, 0x100000000000000, 0xc7caba6e7c5382c8, 0xfe64a52ee96b8fc0,
      0x17253ea8ca10183b7, 0x8734217680d93873, 0x90823f9d9838d1, 0x34c24bcde0052e)
    case 11 => Cut(-6, 25, 58, 0x422ca8b0a00a425, 0x400000000000000, 0xf9bd690a1b68637b, 0x3dfdce7aa3c673b0,
      0x1bd944109c244e413, 0x10e6842ed01b270e6, 0xd9577044f42aa7, 0x83e5bd82b00cf3)
    case 12 => Cut(-6, 26, 61, 0x14adf4b7320334b9, 0x2000000000000000, 0x9c1661a651213e2d, 0x6bea10ca65c084e,
      0x15e57fc398124e65a, 0xfb5c3529c178d7c1, 0x6ace1f72d52521, 0x4ca11519a08a30)
    case 13 => Cut(-6, 27, 63, 0x6765c793fa10079d, 0x8000000000000000, 0xc31bfa0fe5698db8, 0x486e494fcff30a62,
      0x17cd1abd84e4ddb62, 0xfb5c3529c178d7c1, 0x911ea9ffa56a39, 0x5fc95a6008acbc)
  }

  function FromMinus140(i: nat): (r: Row)
    requires i < 14
    ensures IsRow(-140 + i, r)
  {
    hide IsRow;
    match i
    case 0 => Cut(-5, 0, 0, 0x1, 0x1, 0xf3e2f893dec3f126, 0x5a89dba3c3efccfa,
      0x162ed60e89889a775, 0xfb5c3529c178d7c1, 0xa9110097a79568, 0x77bbb0f80ad7eb)
    case 1 => Cut(-5, 1, 3, 0x5, 0x8, 0x986ddb5c6b3a76b7, 0xf89629465a75e01c,
      0x162ed60e89889a775, 0x1043494b29223e306, 0x69aaa05ec8bd61, 0x4d7770d220f291)
    case 2 => Cut(-5, 2, 5, 0x19, 0x20, 0xbe89523386091465, 0xf6bbb397f1135823,
      0x4956ea3e2b7ead24d, 0x4827ce1718370116a, 0x1b4aec750ca5fc1, 0x1ada1fb6da06d0d)
    case 3 => Cut(-5, 3, 7, 0x7d, 0x80, 0xee2ba6c0678b597f, 0x746aa07ded582e2c,
      0x3a6f4f5d1ef09b4dd, 0x394033360ba8ef3fa, 0x1b2eb9457ffe314, 0x1aa1b957c0b73b3)
    case 4 => Cut(-5, 4, 10, 0x271, 0x400, 0x94db483840b717ef, 0xa8c2a44eb4571cdc,
      0x143640f8c434290f5, 0xabd5fc029f6c89dd, 0x5e056d68cbf197, 0x31f5731d05c4b2)
    case 5 => Cut(-5, 5, 12, 0xc35, 0x1000, 0xba121a4650e4ddeb, 0x92f34d62616ce413,
      0x102b672d69c3540c4, 0x2a7ac2975151e97b, 0x5e056d68cbf197, 0xf70192fe13d13)
    case 6 => Cut(-5, 6, 14, 0x3d09, 0x4000, 0xe896a0d7e51e1566, 0x77b020baf9c81d17,
      0x203e4245c23803194, 0x1d8a5011c47b9201f, 0xea5b26613b9a67, 0xd6b5d15300ed46)
    case 7 => Cut(-5, 7, 17, 0x1312d, 0x20000, 0x915e2486ef32cd60, 0xace1474dc1d122e,
      0x22f23479bff474309, 0x17a1d9a7d062db34c, 0x9ec04d25a9ecb5, 0x6b5ae8a98076a3)
    case 8 => Cut(-5, 8, 19, 0x5f5e1, 0x80000, 0xb5b5ada8aaff80b8, 0xd819992132456ba,
      0x3a940e2190574f655, 0x360d83673083789a3, 0x14ca20342f4fc2e, 0x132ef5104e04125)
    case 9 => Cut(-5, 9, 21, 0x1dcd65, 0x200000, 0xe3231912d5bf60e6, 0x10e1fff697ed6c69,
      0x121a2ae97f4f5b2c8, 0x9e7cb55c356538fd, 0x807d7b3667a72d, 0x464f27b1b2e187)
    case 10 => Cut(-5, 10, 24, 0x9502f9, 0x1000000, 0x8df5efabc5979c8f, 0xca8d3ffa1ef463c1,
      0x18ba9cd0f775454a7, 0x122be9f461147266b, 0x6db450efe36407, 0x509d272d890134)
    case 11 => Cut(-5, 11, 26, 0x2e90edd, 0x4000000, 0xb1736b96b6fd83b3, 0xbd308ff8a6b17cb2,
      0x10261b764c2686f3d, 0x205ce7e14edeb72e, 0x598d07248123ba, 0xb3769d46a1dc7)
    case 12 => Cut(-5, 12, 28, 0xe8d4a51, 0x10000000, 0xddd0467c64bce4a0, 0xac7cb3f6d05ddbde,
      0x1b74d122242f2de20, 0x19091e3cea203ddf3, 0xbe51781d6c653b, 0xad89eb3e812b30)
    case 13 => Cut(-5, 13, 31, 0x48c27395, 0x80000000, 0x8aa22c0dbef60ee4, 0x6bcdf07a423aa96b,
      0x12e4fd2ce95e71f0d, 0x624211000c1cbee6, 0x51db45165baa3d, 0x1a9aedf0b510c1)
  }

  function FromMinus126(i: nat): (r: Row)
    requires i < 14
    ensures IsRow(-126 + i, r)
  {
    hide IsRow;
    match i
    case 0 => Cut(-5, 14, 33, 0x16bcc41e9, 0x200000000, 0xad4ab7112eb3929d, 0x86c16c98d2c953c6,
      0x39b926f19304df597, 0x372c2e1efe18be25c, 0x13897c0ede6c698, 0x12ac7ab247d2039)
    case 1 => Cut(-5, 15, 35, 0x71afd498d, 0x800000000, 0xd89d64d57a607744, 0xe871c7bf077ba8b7,
      0x13b4f0d22d27ca1db, 0x9810d87d977454ef, 0x85664761204b22, 0x4055da72100b47)
    case 2 => Cut(-5, 16, 38, 0x2386f26fc1, 0x4000000000, 0x87625f056c7c4a8b, 0x11471cd764ad4972,
      0x26b70be1e01654bb9, 0x16f3180688c34ca3d, 0xa3cb3dab483d0e, 0x611819fab8177d)
    case 3 => Cut(-5, 17, 40, 0xb1a2bc2ec5, 0x10000000000, 0xa93af6c6c79b5d2d, 0xd598e40d3dd89bcf,
      0x2068aa56f05b84b21, 0x13cbe74110e5e49f1, 0xab647b3dd23989, 0x68b1578d4213f8)
    case 4 => Cut(-5, 18, 42, 0x3782dace9d9, 0x40000000000, 0xd389b47879823479, 0x4aff1d108d4ec2c3,
      0x15f7c06bbce8093b7, 0x13cbe74110e5e49f1, 0x9138255a81b48b, 0x82ddad709298f6)
    case 5 => Cut(-5, 19, 45, 0x1158e460913d, 0x200000000000, 0x843610cb4bf160cb, 0xcedf722a585139ba,
      0x100439485e4c23187, 0x15a900d01c501ca9, 0x422c7bd30c8b7a, 0x597dbbe9efe6f)
    case 6 => Cut(-5, 20, 47, 0x56bc75e2d631, 0x800000000000, 0xa54394fe1eedb8fe, 0xc2974eb4ee658828,
      0x123a6e0785b756710, 0x5e92b8ee332d766d, 0x5e23c68c2783a5, 0x1e86c451509ef4)
    case 7 => Cut(-5, 21, 49, 0x1b1ae4d6e2ef5, 0x2000000000000, 0xce947a3da6a9273e, 0x733d226229feea32,
      0x102b4928c4f545e90, 0x12ea24fc70a2b149, 0x6861acecfe1ec9, 0x7a1b1145427bd)
    case 8 => Cut(-5, 22, 52, 0x878678326eac9, 0x10000000000000, 0x811ccc668829b887, 0x806357d5a3f525f,
      0x14f75e1b37632dc97, 0x975127e385158a48, 0x549811bc34b865, 0x26287565a4c6b1)
    case 9 => Cut(-5, 23, 54, 0x2a5a058fc295ed, 0x40000000000000, 0xa163ff802a3426a8, 0xca07c2dcb0cf26f7,
      0x10c5e4e292b5be3ac, 0x543994593a3e915d, 0x549811bc34b865, 0x1a8c8e5000ca44)
    case 10 => Cut(-5, 24, 56, 0xd3c21bcecceda1, 0x100000000000000, 0xc9bcff6034c13052, 0xfc89b393dd02f0b5,
      0x1dfeca2ddceb8904b, 0x11a131b9b847b90d4, 0xbd198e346a087d, 0x6f24a00c3582a9)
    case 11 => Cut(-5, 25, 58, 0x422ca8b0a00a425, 0x400000000000000, 0xfc2c3f3841f17c67, 0xbbac2078d443ace2,
      0x1585e9a70fcedd9f1, 0x9285132eb2b0da7a, 0xa99c52aa5ce708, 0x482a28f81b3fbf)
    case 12 => Cut(-5, 26, 61, 0x14adf4b7320334b9, 0x2000000000000000, 0x9d9ba7832936edc0, 0xd54b944b84aa4c0d,
      0x1585e9a70fcedd9f1, 0x12f4e3d9483b0ef8d, 0x6a01b3aa7a1065, 0x5d5db34d66dca0)
    case 13 => Cut(-5, 27, 63, 0x6765c793fa10079d, 0x8000000000000000, 0xc5029163f384a931, 0xa9e795e65d4df11,
      0x2fdd36657de4aa7f3, 0x263a7036c156cbfd1, 0x126adae2c147a07, 0xeb5ad4284dd7f2)
  }

  function FromMinus112(i: nat): (r: Row)
    requires i < 14
    ensures IsRow(-112 + i, r)
  {
    hide IsRow;
    match i
    case 0 => Cut(-4, 0, 0, 0x1, 0x1, 0xf64335bcf065d37d, 0x4d4617b5ff4a16d5,
      0x1aca9299f2a00698b, 0x16dfbb399d6d8ac8c, 0xce2d8c201db300, 0xb007fa248735dd)
    case 1 => Cut(-4, 1, 3, 0x5, 0x8, 0x99ea0196163fa42e, 0x504bced1bf8e4e45,
      0x10fbf9a482f72f236, 0x9ce98f56fa8d7755, 0x51b0f5039de9e3, 0x2f2b829074a5fd)
    case 2 => Cut(-4, 2, 5, 0x19, 0x20, 0xc06481fb9bcf8d39, 0xe45ec2862f71e1d6,
      0x1aca9299f2a00698b, 0xd34314989da47493, 0xa11395791733d8, 0x4f62a0757949f5)
    case 3 => Cut(-4, 3, 7, 0x7d, 0x80, 0xf07da27a82c37088, 0x5d767327bb4e5a4c,
      0x1aca9299f2a00698b, 0x1aa34c30cca83cfc9, 0xc9587ad75d00ce, 0xc83150904ab0d7)
    case 4 => Cut(-4, 4, 10, 0x271, 0x400, 0x964e858c91ba2655, 0x3a6a07f8d510f86f,
      0x2591b634c94326add, 0x2006ddfe37f9cd072, 0xb077360e35f4b2, 0x966ec6fdfc989f)
    case 5 => Cut(-4, 5, 12, 0xc35, 0x1000, 0xbbe226efb628afea, 0x890489f70a55368b,
      0x227d3ebc487066aa0, 0x145316d6a50af358d, 0xca7fa51e6f50c5, 0x775531028bc97c)
    case 6 => Cut(-4, 6, 14, 0x3d09, 0x4000, 0xeadab0aba3b2dbe5, 0x2b45ac74ccea842e,
      0x1b9765636d26b8880, 0x145316d6a50af358d, 0xca7fa51e6f50c5, 0x952a7d432ebbdb)
    case 7 => Cut(-4, 7, 17, 0x1312d, 0x20000, 0x92c8ae6b464fc96f, 0x3b0b8bc90012929d,
      0x11c212955c2d86da5, 0x3c50d3496c084a0d, 0x5174d288670eec, 0x114ab05e93771f)
    case 8 => Cut(-4, 8, 19, 0x5f5e1, 0x80000, 0xb77ada0617e3bbcb, 0x9ce6ebb40173744,
      0x29593abeed8e8d348, 0x22c7f943c8eb6e883, 0xed1505db963f03, 0xc76d20dae90429)
    case 9 => Cut(-4, 9, 21, 0x1dcd65, 0x200000, 0xe55990879ddcaabd, 0xcc420a6a101d0515,
      0x4ec1b49a5ebb3b34d, 0x4c213402b679fbbcb, 0x23476a2e475b164, 0x221a2b0641f13f7)
    case 10 => Cut(-4, 10, 24, 0x9502f9, 0x1000000, 0x8f57fa54c2a9eab6, 0x9fa946824a12232d,
      0x150404bd4209fbc10, 0x53e54f371ed412a1, 0x5e23bc81b11321, 0x177cf61bb62c9c)
    case 11 => Cut(-4, 11, 26, 0x2e90edd, 0x4000000, 0xb32df8e9f3546564, 0x47939822dc96abf9,
      0x11dc7b2e7ed109a2d, 0x53e54f371ed412a1, 0x6402fa089e9e48, 0x1d5c33a2a3b7c3)
    case 12 => Cut(-4, 12, 28, 0xe8d4a51, 0x10000000, 0xdff9772470297ebd, 0x59787e2b93bc56f7,
      0x46fc464ff797ec702, 0x4369c746ab07b74f9, 0x1f0d76d4b5dc0cb, 0x1d7d6aec9361939)
    case 13 => Cut(-4, 13, 31, 0x48c27395, 0x80000000, 0x8bfbea76c619ef36, 0x57eb4edb3c55b65a,
      0x25ae999e9080824e5, 0x17649d795e3fadcc1, 0xa4d710e657e080, 0x665534a0f4bd93)
  }

  function FromMinus98(i: nat): (r: Row)
    requires i < 14
    ensures IsRow(-98 + i, r)
  {
    hide IsRow;
    match i
    case 0 => Cut(-4, 14, 33, 0x16bcc41e9, 0x200000000, 0xaefae51477a06b03, 0xede622920b6b23f1,
      0x137956f63882cfbab, 0x3a44088119923b72, 0x6a7c783b01d601, 0x13e9ac2dc8cd53)
    case 1 => Cut(-4, 15, 35, 0x71afd498d, 0x800000000, 0xdab99e59958885c4, 0xe95fab368e45eced,
      0x10c85b523a8b483d3, 0xa731f262afa9d089, 0x72b6477c60c7d2, 0x476ce175c4437b)
    case 2 => Cut(-4, 16, 38, 0x2386f26fc1, 0x4000000000, 0x88b402f7fd75539b, 0x11dbcb0218ebb414,
      0x14f667c7e555ed73d, 0x10b831d6ab2a94da8, 0x598d250b2d8dc2, 0x476ce175c4437b)
    case 3 => Cut(-4, 17, 40, 0xb1a2bc2ec5, 0x10000000000, 0xaae103b5fcd2a881, 0xd652bdc29f26a119,
      0x1ba67bb75d008f64d, 0xd6027deef5543e20, 0x93a6df08db12f0, 0x476ce175c4437b)
    case 4 => Cut(-4, 18, 42, 0x3782dace9d9, 0x40000000000, 0xd59944a37c0752a2, 0x4be76d3346f0495f,
      0x114f3a359cdec289f, 0x52ba0c0e010e66d7, 0x738a4363f6da2e, 0x228329b38d7ebf)
    case 5 => Cut(-4, 19, 45, 0x1158e460913d, 0x200000000000, 0x857fcae62d8493a5, 0x6f70a4400c562ddb,
      0x2ad8c767cf0e4de4b, 0x1e649760e41b7cffc, 0xb2c018cb765c16, 0x7ecb7519166a95)
    case 6 => Cut(-4, 20, 47, 0x56bc75e2d631, 0x800000000000, 0xa6dfbd9fb8e5b88e, 0xcb4ccd500f6bb952,
      0x2d0a7722a18a3f2d7, 0x1f7d6f3e4d5975a42, 0xeae135d87f36e5, 0xa436ddcc71a71f)
    case 7 => Cut(-4, 21, 49, 0x1b1ae4d6e2ef5, 0x2000000000000, 0xd097ad07a71f26b2, 0x7e2000a41346a7a7,
      0x1b1a0fc8a8619312a, 0xf4e6146962d8a905, 0xb0a9dc1e21e76f, 0x63c604e93c3781)
    case 8 => Cut(-4, 22, 52, 0x878678326eac9, 0x10000000000000, 0x825ecc24c873782f, 0x8ed400668c0c28c8,
      0x8b699dd4640bf9f6e, 0x82ee54048abc273cb, 0x237fa10d0049d41, 0x2156c14af18d963)
    case 9 => Cut(-4, 23, 54, 0x2a5a058fc295ed, 0x40000000000000, 0xa2f67f2dfa90563b, 0x728900802f0f32fa,
      0x10f6939fb29fa5746, 0x32ddbe5e4af7cad3, 0x5662f6524d69ab, 0x1030a668df20a8)
    case 10 => Cut(-4, 24, 56, 0xd3c21bcecceda1, 0x100000000000000, 0xcbb41ef979346bca, 0x4f2b40a03ad2ffb9,
      0x1bc6e4fa4b88ee767, 0xf7a6070181c3591d, 0xb0d2163ed29b80, 0x62877320f4c229)
    case 11 => Cut(-4, 25, 58, 0x422ca8b0a00a425, 0x400000000000000, 0xfea126b7d78186bc, 0xe2f610c84987bfa8,
      0x14f32c05e0f4267fe, 0x6d3b8f46a94c7f69, 0xa6b3ae3d472717, 0x3652ed91401b49)
    case 12 => Cut(-4, 26, 61, 0x14adf4b7320334b9, 0x2000000000000000, 0x9f24b832e6b0f436, 0xdd9ca7d2df4d7c9,
      0x1bc6e4fa4b88ee767, 0x1b96e483a4a69bd19, 0x8a24216114897c, 0x893567feb2d42d)
    case 13 => Cut(-4, 27, 63, 0x6765c793fa10079d, 0x8000000000000000, 0xc6ede63fa05d3143, 0x91503d1c79720dbb,
      0x10f756ed9ebc46821, 0x567c706566653fa3, 0x69788bcd92d1bb, 0x219a4ef5e36d10)
  }

  function FromMinus84(i: nat): (r: Row)
    requires i < 14
    ensures IsRow(-84 + i, r)
  {
    hide IsRow;
    match i
    case 0 => Cut(-3, 0, 0, 0x1, 0x1, 0xf8a95fcf88747d94, 0x75a44c6397ce912a,
      0x11e5b18ff74ee1fd0, 0x567c706566653fa3, 0x8b12dac3763ecb, 0x2a00e2b35c4854)
    case 1 => Cut(-3, 1, 3, 0x5, 0x8, 0x9b69dbe1b548ce7c, 0xc986afbe3ee11aba,
      0x20f5bb51d0d01329c, 0x15e2a4af3ece5d8f1, 0xa0134c1d2462f5, 0x6a4a33beabdeaf)
    case 2 => Cut(-3, 2, 5, 0x19, 0x20, 0xc24452da229b021b, 0xfbe85badce996168,
      0x16262d4524036b356, 0x68a0a2595856780b, 0x8676bcec2d4aaf, 0x27b2d3c7b7ce46)
    case 3 => Cut(-3, 3, 7, 0x7d, 0x80, 0xf2d56790ab41c2a2, 0xfae27299423fb9c3,
      0x10d5631fa0d68a1b1, 0x29d9da8a2355c99e, 0x7fbe0075ec3fc6, 0x13d969e3dbe723)
    case 4 => Cut(-3, 4, 10, 0x271, 0x400, 0x97c560ba6b0919a5, 0xdccd879fc967d41a,
      0x32ad4d1db23cb1572, 0x23cd1d3161f3cb131, 0xf05a57f6000ae1, 0xa9ccb4b4a5c748)
    case 5 => Cut(-3, 5, 12, 0xc35, 0x1000, 0xbdb6b8e905cb600f, 0x5400e987bbc1c920,
      0x10a413a36cdd7b02b, 0x99484c6fa8b28083, 0x62a819558b1560, 0x38cbe4462211dd)
    case 6 => Cut(-3, 6, 14, 0x3d09, 0x4000, 0xed246723473e3813, 0x290123e9aab23b68,
      0x10a413a36cdd7b02b, 0xafe07bfde3538a0b, 0x7b521faaeddab8, 0x5175ea9b84d735)
    case 7 => Cut(-3, 7, 17, 0x1312d, 0x20000, 0x9436c0760c86e30b, 0xf9a0b6720aaf6521,
      0x10a413a36cdd7b02b, 0xe426edf1a8f42009, 0x4d1353cad4a8b3, 0x420ba6a6271bde)
    case 8 => Cut(-3, 8, 19, 0x5f5e1, 0x80000, 0xb94470938fa89bce, 0xf808e40e8d5b3e69,
      0x111e01644a2053365, 0xf364a60d514f267d, 0x631a1406b53615, 0x581266e207a940)
    case 9 => Cut(-3, 9, 21, 0x1dcd65, 0x200000, 0xe7958cb87392c2c2, 0xb60b1d1230b20e04,
      0x10bf6f14ba6d47deb, 0x30adbacf76a96e19, 0x79342ee0e97f19, 0x160499b881ea50)
    case 10 => Cut(-3, 10, 24, 0x9502f9, 0x1000000, 0x90bd77f3483bb9b9, 0xb1c6f22b5e6f48c2,
      0x110f8c5e128cf6928, 0x30adbacf76a96e19, 0x4d2afb6fe5aa79, 0xdc2e013513272)
    case 11 => Cut(-3, 11, 26, 0x2e90edd, 0x4000000, 0xb4ecd5f01a4aa828, 0x1e38aeb6360b1af3,
      0x112b230b50a2ca065, 0x615b759eed52dc32, 0x6111b60a0beba1, 0x226730304afe1d)
    case 12 => Cut(-3, 12, 28, 0xe8d4a51, 0x10000000, 0xe2280b6c20dd5232, 0x25c6da63c38de1b0,
      0x244ab1e7e69fb91ef, 0x1856dd67bb54b70c8, 0x1007cf2c87d2e2c, 0xac03f0f176f691)
    case 13 => Cut(-3, 13, 31, 0x48c27395, 0x80000000, 0x8d590723948a535f, 0x579c487e5a38ad0e,
      0x17bb2da3c7e3562ea, 0xc368d8b01570703d, 0x68d2c6fbed23ab, 0x35f25a1fabd583)
  }

  function FromMinus70(i: nat): (r: Row)
    requires i < 14
    ensures IsRow(-70 + i, r)
  {
    hide IsRow;
    match i
    case 0 => Cut(-3, 14, 33, 0x16bcc41e9, 0x200000000, 0xb0af48ec79ace837, 0x2d835a9df0c6d851,
      0x10ae6ae47833684ff, 0x529cacbb1a719252, 0x5c1aabc4dcd021, 0x1c8223b18b2e6f)
    case 1 => Cut(-3, 15, 35, 0x71afd498d, 0x800000000, 0xdcdb1b2798182244, 0xf8e431456cf88e65,
      0x15d835b029da81751, 0xcde514fd21047e62, 0x96c4035401fe34, 0x58d08b6cbf2db7)
    case 2 => Cut(-3, 16, 38, 0x2386f26fc1, 0x4000000000, 0x8a08f0f8bf0f156b, 0x1b8e9ecb641b58ff,
      0x13fc5eedd4fc84676, 0x5ed031c9fae1fa0b, 0x5635eef985216d, 0x198fc54bdf5715)
    case 3 => Cut(-3, 17, 40, 0xb1a2bc2ec5, 0x10000000000, 0xac8b2d36eed2dac5, 0xe272467e3d222f3f,
      0x1b660dd91ef5d4dfd, 0x1108b36e89e4c6763, 0x93bbb471b9b416, 0x5bd8da4f0777d5)
    case 4 => Cut(-3, 18, 42, 0x3782dace9d9, 0x40000000000, 0xd7adf884aa879177, 0x5b0ed81dcc6abb0f,
      0x36cc1bb23deba9bfa, 0x2d2bf4c295b3ac9bd, 0x17155431c504237, 0x13074e8ee88b711)
    case 5 => Cut(-3, 19, 45, 0x1158e460913d, 0x200000000000, 0x86ccbb52ea94baea, 0x98e947129fc2b4e9,
      0x6bab62ce26ff5411b, 0x63f81074d39f565b7, 0x1c58e889dab6160, 0x1a51e5b86c79bcd)
    case 6 => Cut(-3, 20, 47, 0x56bc75e2d631, 0x800000000000, 0xa87fea27a539e9a5, 0x3f2398d747b36224,
      0x1596b96497e67bf91, 0x9369000b5997adff, 0x71ad9978cf8ead, 0x308347f9a34d32)
    case 7 => Cut(-3, 21, 49, 0x1b1ae4d6e2ef5, 0x2000000000000, 0xd29fe4b18e88640e, 0x8eec7f0d19a03aad,
      0x101da239217103cea, 0x93df7212707c7c5, 0x6a12ff0186dc5d, 0x3cd4d3ba45928)
    case 8 => Cut(-3, 22, 52, 0x878678326eac9, 0x10000000000000, 0x83a3eeeef9153e89, 0x1953cf68300424ac,
      0x106d7956a463589ff, 0x93df7212707c7c5, 0x43945105a6d5a8, 0x260504546b7b9)
    case 9 => Cut(-3, 23, 54, 0x2a5a058fc295ed, 0x40000000000000, 0xa48ceaaab75a8e2b, 0x5fa8c3423c052dd7,
      0x15ec0bd8023077e18, 0x60ee26812fc9a74b, 0x70ba4629e67863, 0x1f26f5e11203c0)
    case 10 => Cut(-3, 24, 56, 0xd3c21bcecceda1, 0x100000000000000, 0xcdb02555653131b6, 0x3792f412cb06794d,
      0x12bfd05b38bfb1fef, 0x60ee26812fc9a74b, 0x788403a22af953, 0x26f0b3595684b0)
    case 11 => Cut(-3, 25, 59, 0x422ca8b0a00a425, 0x800000000000000, 0x808e17555f3ebf11, 0xe2bbd88bbee40bd0,
      0x144e4985093825aa0, 0x60ee26812fc9a74b, 0x51935048d474a3, 0x18567017d612ee)
    case 12 => Cut(-3, 26, 61, 0x14adf4b7320334b9, 0x2000000000000000, 0xa0b19d2ab70e6ed6, 0x5b6aceaeae9d0ec4,
      0x23a175b777553f970, 0x17df9d43cea73a403, 0xb2ed10a82cc05b, 0x77e29471e1f7d7)
    case 13 => Cut(-3, 27, 63, 0x6765c793fa10079d, 0x8000000000000000, 0xc8de047564d20a8b, 0xf245825a5a445275,
      0x1a2732e20a87cb677, 0xe655a6e61d9c610a, 0xa42a719a9a0e3a, 0x5a5d5656bc9395)
  }

  function FromMinus56(i: nat): (r: Row)
    requires i < 14
    ensures IsRow(-56 + i, r)
  {
    hide IsRow;
    match i
    case 0 => Cut(-2, 0, 0, 0x1, 0x1, 0xfb158592be068d2e, 0xeed6e2f0f0d56712,
      0x1356dab7ffb8c8b01, 0xafd2e595c7244b4f, 0x97be454c72bb86, 0x5639479204cd59)
    case 1 => Cut(-2, 1, 3, 0x5, 0x8, 0x9ced737bb6c4183d, 0x55464dd69685606b,
      0x16adec77743b63e15, 0x951a579a230f71c5, 0x6f382abe6330bf, 0x2db32d03f54292)
    case 2 => Cut(-2, 2, 5, 0x19, 0x20, 0xc428d05aa4751e4c, 0xaa97e14c3c26b886,
      0x161e464077f5e84e9, 0x12a34af34461ee38a, 0x8795a4261eccdf, 0x723ff089e5266d)
    case 3 => Cut(-2, 3, 7, 0x7d, 0x80, 0xf53304714d9265df, 0xd53dd99f4b3066a8,
      0x4562e2af6b3e1cf2a, 0x3bd7c78630f15aced, 0x213abb6ca5e6043, 0x1ca8b77d0409037)
    case 4 => Cut(-2, 4, 10, 0x271, 0x400, 0x993fe2c6d07b7fab, 0xe546a8038efe4029,
      0x1018a50dc8c0f8171, 0x284b039d414abf3, 0x4d15f7c0ea0acd, 0xc0f71a831df6)
    case 5 => Cut(-2, 5, 12, 0xc35, 0x1000, 0xbf8fdb78849a5f96, 0xde98520472bdd033,
      0x2def24c8c8d7dfab4, 0x2654b7a88674534e7, 0x112f9e34472ea23, 0xe575f9aec10f99)
    case 6 => Cut(-2, 6, 14, 0x3d09, 0x4000, 0xef73d256a5c0f77c, 0x963e66858f6d4440,
      0x1d04a77d7a14eac67, 0xdcfcd3cf54dd20cd, 0xd923ca6830b383, 0x675a0271f4112a)
    case 7 => Cut(-2, 7, 17, 0x1312d, 0x20000, 0x95a8637627989aad, 0xdde7001379a44aa8,
      0x1099e74414405f667, 0x116b307eb4ad5333, 0x4da3f86c934035, 0x5176c2b081542)
    case 8 => Cut(-2, 8, 19, 0x5f5e1, 0x80000, 0xbb127c53b17ec159, 0x5560c018580d5d52,
      0x10005b716faf2fd75, 0x6f7acff7b7887ae, 0x5d8b54bd907cad, 0x28bb615840aa1)
    case 9 => Cut(-2, 9, 21, 0x1dcd65, 0x200000, 0xe9d71b689dde71af, 0xaab8f01e6e10b4a6,
      0x152f2ce00047e4ac1, 0x7a45d5ff50cacdd3, 0x9acde5d992beeb, 0x37d826c1b7a6b0)
    case 10 => Cut(-2, 10, 24, 0x9502f9, 0x1000000, 0x9226712162ab070d, 0xcab3961304ca70e8,
      0x17322b79a96148aa7, 0x7a45d5ff50cacdd3, 0x69f0c3f0120d11, 0x22e7183912c82e)
    case 11 => Cut(-2, 11, 26, 0x2e90edd, 0x4000000, 0xb6b00d69bb55c8d1, 0x3d607b97c5fd0d22,
      0x2b02e72dfe0ffce5c, 0x1d25d0f6f414ab501, 0xf58d24d45d2dc9, 0xa66770b186111e)
    case 12 => Cut(-2, 12, 28, 0xe8d4a51, 0x10000000, 0xe45c10c42a2b3b05, 0x8cb89a7db77c506a,
      0xac0b9cb7f83ff3970, 0xa0ab9d3d5d0a7d7e5, 0x4cbc1b825d1e4ed, 0x47a9501e804d250)
    case 13 => Cut(-2, 13, 31, 0x48c27395, 0x80000000, 0x8eb98a7a9a5b04e3, 0x77f3608e92adb242,
      0x15545a6c564ce40cb, 0x9ab0e326f69fb55a, 0x5f21fd38ffb6b0, 0x2b1f1dc099fcbd)
  }

  function FromMinus42(i: nat): (r: Row)
    requires i < 14
    ensures IsRow(-42 + i, r)
  {
    hide IsRow;
    match i
    case 0 => Cut(-2, 14, 33, 0x16bcc41e9, 0x200000000, 0xb267ed1940f1c61c, 0x55f038b237591ed3,
      0x15545a6c564ce40cb, 0xc001d713730f6ad7, 0x76ea7c873fa45c, 0x42e79d0ed9ea69)
    case 1 => Cut(-2, 15, 35, 0x71afd498d, 0x800000000, 0xdf01e85f912e37a3, 0x6b6c46dec52f6688,
      0x110e267c2fc4d5293, 0x1118cfc09a203b8e, 0x76dba07c272c87, 0x7725ecb3a183b)
    case 2 => Cut(-2, 16, 38, 0x2386f26fc1, 0x4000000000, 0x8b61313bbabce2c6, 0x2323ac4b3b3da015,
      0x1442cd704caae053d, 0x5c30aa9b85899389, 0x583fb60aa56943, 0x1918b666f4c6e2)
    case 3 => Cut(-2, 17, 40, 0xb1a2bc2ec5, 0x10000000000, 0xae397d8aa96c1b77, 0xabec975e0a0d081a,
      0x2e35523ee550ed085, 0x22a59345be71042b4, 0xfb94f37902ce96, 0xbca28fa67884cb)
    case 4 => Cut(-2, 18, 42, 0x3782dace9d9, 0x40000000000, 0xd9c7dced53c72255, 0x96e7bd358c904a21,
      0x171d8f378fb67a0af, 0x1719b1c213a3caac9, 0x9d50d29a102256, 0x9d3684b17cf60b)
    case 5 => Cut(-2, 19, 45, 0x1158e460913d, 0x200000000000, 0x881cea14545c7575, 0x7e50d64177da2e54,
      0x1bb9fab17c659fc1a, 0x1715d44c97911b4e3, 0x75ef76ff42839b, 0x6231a23d921e18)
    case 6 => Cut(-2, 20, 47, 0x56bc75e2d631, 0x800000000000, 0xaa242499697392d2, 0xdde50bd1d5d0b9e9,
      0x1acc596a1b6e5210f, 0x1715d44c97911b4e3, 0x8e7bdf8ea70b21, 0x7abe0accf6a59e)
    case 7 => Cut(-2, 21, 49, 0x1b1ae4d6e2ef5, 0x2000000000000, 0xd4ad2dbfc3d07787, 0x955e4ec64b44e864,
      0x1570478815f1db40c, 0xc5db0888c982dadd, 0x8e7bdf8ea70b21, 0x522f9db8e0c975)
    case 8 => Cut(-2, 22, 52, 0x878678326eac9, 0x10000000000000, 0x84ec3c97da624ab4, 0xbd5af13bef0b113e,
      0x1081418a114006cf4, 0xd1f63a80b9aa2b5, 0x448f06dd8edab9, 0x36825b6d47baf)
    case 9 => Cut(-2, 23, 54, 0x2a5a058fc295ed, 0x40000000000000, 0xa6274bbdd0fadd61, 0xecb1ad8aeacdd58e,
      0x25ee487326da0aa26, 0x22773d4bd674e73d1, 0xc4f2ac051ec26f, 0xb2f4e0e005ecd5)
    case 10 => Cut(-2, 24, 56, 0xd3c21bcecceda1, 0x100000000000000, 0xcfb11ead453994ba, 0x67de18eda5814af2,
      0x1405f96519b19c353, 0xd17e31678e7556a9, 0x81f579837ad705, 0x54fafda6bcc104)
    case 11 => Cut(-2, 25, 59, 0x422ca8b0a00a425, 0x800000000000000, 0x81ceb32c4b43fcf4, 0x80eacf948770ced7,
      0x27962d12ee2e7d1d9, 0x1a2fc62cf1ceaad52, 0xa0951a1d51c4a7, 0x6a39bd106bf145)
    case 12 => Cut(-2, 26, 61, 0x14adf4b7320334b9, 0x2000000000000000, 0xa2425ff75e14fc31, 0xa1258379a94d028d,
      0x1283c03591bf5c1a5, 0xa3ab29f2abf13a3c, 0x5de16451e2572c, 0x33de6003861de3)
    case 13 => Cut(-2, 27, 63, 0x6765c793fa10079d, 0x8000000000000000, 0xcad2f7f5359a3b3e, 0x96ee45813a04330,
      0x1283c03591bf5c1a5, 0x47b020e383f63b0f, 0x7559bd665aecf7, 0x1c6606ef0d8818)
  }

  function FromMinus28(i: nat): (r: Row)
    requires i < 14
    ensures IsRow(-28 + i, r)
  {
    hide IsRow;
    match i
    case 0 => Cut(-1, 0, 0, 0x1, 0x1, 0xfd87b5f28300ca0d, 0x8bca9d6e188853fc,
      0x204fce5e3e2502611, 0x126568363b3233090, 0x100000000000000, 0x91bfc45568750f)
    case 1 => UpEven(-1, 1, 3, 0x5, 0x8, 0x9e74d1b791e07e48, 0x775ea264cf55347e,
      0x13ce9a36f23c0fc9, 8)
    case 2 => UpEven(-1, 2, 5, 0x19, 0x20, 0xc612062576589dda, 0x95364afe032a819e,
      0x63090312bb2c4eed, 2)
    case 3 => UpOdd(-1, 3, 7, 0x7d, 0x80, 0xf79687aed3eec551, 0x3a83ddbd83f52205,
      0x9d2250f9d617a3b1, 0x97f88184e810e242)
    case 4 => UpEven(-1, 4, 10, 0x271, 0x400, 0x9abe14cd44753b52, 0xc4926a9672793543,
      0x4d5f0a66a23a9da9, 2)
    case 5 => UpOdd(-1, 5, 12, 0xc35, 0x1000, 0xc16d9a0095928a27, 0x75b7053c0f178294,
      0x55060aa4b68c4597, 0x403df4be89d5bf87)
    case 6 => UpOdd(-1, 6, 14, 0x3d09, 0x4000, 0xf1c90080baf72cb1, 0x5324c68b12dd6339,
      0xabd8cf0093f9c51, 0xa24e08707cab448)
    case 7 => UpEven(-1, 7, 17, 0x1312d, 0x20000, 0x971da05074da7bee, 0xd3f6fc16ebca5e04,
      0x4b8ed0283a6d3df7, 2)
    case 8 => UpEven(-1, 8, 19, 0x5f5e1, 0x80000, 0xbce5086492111aea, 0x88f4bb1ca6bcf585,
      0x5e72843249088d75, 2)
    case 9 => UpOdd(-1, 9, 21, 0x1dcd65, 0x200000, 0xec1e4a7db69561a5, 0x2b31e9e3d06c32e6,
      0xb041aef332729e2d, 0xa29168443d5bd86b)
    case 10 => UpOdd(-1, 10, 24, 0x9502f9, 0x1000000, 0x9392ee8e921d5d07, 0x3aff322e62439fd0,
      0x82832df8cc980b7, 0x4b3c3bd4b95e940)
    case 11 => UpOdd(-1, 11, 26, 0x2e90edd, 0x4000000, 0xb877aa3236a4b449, 0x9befeb9fad487c3,
      0x89ee897ef59d7df9, 0x6363ec689fe3979b)
    case 12 => UpOdd(-1, 12, 28, 0xe8d4a51, 0x10000000, 0xe69594bec44de15b, 0x4c2ebe687989a9b4,
      0x30fad280461f66d3, 0x2c1df79145125a20)
    case 13 => UpOdd(-1, 13, 31, 0x48c27395, 0x80000000, 0x901d7cf73ab0acd9, 0xf9d37014bf60a11,
      0xb7d434f9093d1369, 0x677c8a9266f5159b)
  }

  function FromMinus14(i: nat): (r: Row)
    requires i < 14
    ensures IsRow(-14 + i, r)
  {
    hide IsRow;
    match i
    case 0 => UpOdd(-1, 14, 33, 0x16bcc41e9, 0x200000000, 0xb424dc35095cd80f, 0x538484c19ef38c95,
      0x4776114e932f16ef, 0x32494e3df377fbda)
    case 1 => UpOdd(-1, 15, 35, 0x71afd498d, 0x800000000, 0xe12e13424bb40e13, 0x2865a5f206b06fba,
      0xa976a8f009f3ec1b, 0x950fca8d051f7f36)
    case 2 => UpOdd(-1, 16, 38, 0x2386f26fc1, 0x4000000000, 0x8cbccc096f5088cb, 0xf93f87b7442e45d4,
      0xccda17e7d0519ce3, 0x709e5881abf430de)
    case 3 => UpEven(-1, 17, 40, 0xb1a2bc2ec5, 0x10000000000, 0xafebff0bcb24aafe, 0xf78f69a51539d749,
      0x57f5ff85e592557f, 2)
    case 4 => UpEven(-1, 18, 42, 0x3782dace9d9, 0x40000000000, 0xdbe6fecebdedd5be, 0xb573440e5a884d1c,
      0x6df37f675ef6eadf, 2)
    case 5 => UpOdd(-1, 19, 45, 0x1158e460913d, 0x200000000000, 0x89705f4136b4a597, 0x31680a88f8953031,
      0x47a5ffb53d302a27, 0x26774920b7634d5b)
    case 6 => UpEven(-1, 20, 47, 0x56bc75e2d631, 0x800000000000, 0xabcc77118461cefc, 0xfdc20d2b36ba7c3e,
      0x2af31dc4611873bf, 4)
    case 7 => UpEven(-1, 21, 49, 0x1b1ae4d6e2ef5, 0x2000000000000, 0xd6bf94d5e57a42bc, 0x3d32907604691b4d,
      0x35afe535795e90af, 4)
    case 8 => UpOdd(-1, 22, 52, 0x878678326eac9, 0x10000000000000, 0x8637bd05af6c69b5, 0xa63f9a49c2c1b110,
      0x2d28ff519dc1fc9d, 0x17ad4acbd85ad372)
    case 9 => UpOdd(-1, 23, 54, 0x2a5a058fc295ed, 0x40000000000000, 0xa7c5ac471b478423, 0xfcf80dc33721d54,
      0xb464ceec1a874b8b, 0x76390df51733b898)
    case 10 => UpOdd(-1, 24, 56, 0xd3c21bcecceda1, 0x100000000000000, 0xd1b71758e219652b, 0xd3c36113404ea4a9,
      0x6978533007ec3183, 0x5666aa8c1bca175b)
    case 11 => UpOdd(-1, 25, 59, 0x422ca8b0a00a425, 0x800000000000000, 0x83126e978d4fdf3b, 0x645a1cac083126ea,
      0xc687d6343eb1a1f3, 0x65a5cdedb181dc22)
    case 12 => UpEven(-1, 26, 61, 0x14adf4b7320334b9, 0x2000000000000000, 0xa3d70a3d70a3d70a, 0x3d70a3d70a3d70a4,
      0x51eb851eb851eb85, 2)
    case 13 => UpEven(-1, 27, 63, 0x6765c793fa10079d, 0x8000000000000000, 0xcccccccccccccccc, 0xcccccccccccccccd,
      0x3333333333333333, 4)
  }

  function From0(i: nat): (r: Row)
    requires i < 14
    ensures IsRow(0 + i, r)
  {
    hide IsRow;
    match i
    case 0 => Whole(0, 0, 0, 0x1, 0x1, 0x8000000000000000, 0x0)
    case 1 => Whole(0, 1, 2, 0x5, 0x4, 0xa000000000000000, 0x0)
    case 2 => Whole(0, 2, 4, 0x19, 0x10, 0xc800000000000000, 0x0)
    case 3 => Whole(0, 3, 6, 0x7d, 0x40, 0xfa00000000000000, 0x0)
    case 4 => Whole(0, 4, 9, 0x271, 0x200, 0x9c40000000000000, 0x0)
    case 5 => Whole(0, 5, 11, 0xc35, 0x800, 0xc350000000000000, 0x0)
    case 6 => Whole(0, 6, 13, 0x3d09, 0x2000, 0xf424000000000000, 0x0)
    case 7 => Whole(0, 7, 16, 0x1312d, 0x10000, 0x9896800000000000, 0x0)
    case 8 => Whole(0, 8, 18, 0x5f5e1, 0x40000, 0xbebc200000000000, 0x0)
    case 9 => Whole(0, 9, 20, 0x1dcd65, 0x100000, 0xee6b280000000000, 0x0)
    case 10 => Whole(0, 10, 23, 0x9502f9, 0x800000, 0x9502f90000000000, 0x0)
    case 11 => Whole(0, 11, 25, 0x2e90edd, 0x2000000, 0xba43b74000000000, 0x0)
    case 12 => Whole(0, 12, 27, 0xe8d4a51, 0x8000000, 0xe8d4a51000000000, 0x0)
    case 13 => Whole(0, 13, 30, 0x48c27395, 0x40000000, 0x9184e72a00000000, 0x0)
  }

  function From14(i: nat): (r: Row)
    requires i < 14
    ensures IsRow(14 + i, r)
  {
    hide IsRow;
    match i
    case 0 => Whole(0, 14, 32, 0x16bcc41e9, 0x100000000, 0xb5e620f480000000, 0x0)
    case 1 => Whole(0, 15, 34, 0x71afd498d, 0x400000000, 0xe35fa931a0000000, 0x0)
    case 2 => Whole(0, 16, 37, 0x2386f26fc1, 0x2000000000, 0x8e1bc9bf04000000, 0x0)
    case 3 => Whole(0, 17, 39, 0xb1a2bc2ec5, 0x8000000000, 0xb1a2bc2ec5000000, 0x0)
    case 4 => Whole(0, 18, 41, 0x3782dace9d9, 0x20000000000, 0xde0b6b3a76400000, 0x0)
    case 5 => Whole(0, 19, 44, 0x1158e460913d, 0x100000000000, 0x8ac7230489e80000, 0x0)
    case 6 => Whole(0, 20, 46, 0x56bc75e2d631, 0x400000000000, 0xad78ebc5ac620000, 0x0)
    case 7 => Whole(0, 21, 48, 0x1b1ae4d6e2ef5, 0x1000000000000, 0xd8d726b7177a8000, 0x0)
    case 8 => Whole(0, 22, 51, 0x878678326eac9, 0x8000000000000, 0x878678326eac9000, 0x0)
    case 9 => Whole(0, 23, 53, 0x2a5a058fc295ed, 0x20000000000000, 0xa968163f0a57b400, 0x0)
    case 10 => Whole(0, 24, 55, 0xd3c21bcecceda1, 0x80000000000000, 0xd3c21bcecceda100, 0x0)
    case 11 => Whole(0, 25, 58, 0x422ca8b0a00a425, 0x400000000000000, 0x84595161401484a0, 0x0)
    case 12 => Whole(0, 26, 60, 0x14adf4b7320334b9, 0x1000000000000000, 0xa56fa5b99019a5c8, 0x0)
    case 13 => Whole(0, 27, 62, 0x6765c793fa10079d, 0x4000000000000000, 0xcecb8f27f4200f3a, 0x0)
  }

  function From28(i: nat): (r: Row)
    requires i < 14
    ensures IsRow(28 + i, r)
  {
    hide IsRow;
    match i
    case 0 => Whole(1, 0, 0, 0x1, 0x1, 0x813f3978f8940984, 0x4000000000000000)
    case 1 => Whole(1, 1, 2, 0x5, 0x4, 0xa18f07d736b90be5, 0x5000000000000000)
    case 2 => Whole(1, 2, 4, 0x19, 0x10, 0xc9f2c9cd04674ede, 0xa400000000000000)
    case 3 => Whole(1, 3, 6, 0x7d, 0x40, 0xfc6f7c4045812296, 0x4d00000000000000)
    case 4 => Whole(1, 4, 9, 0x271, 0x200, 0x9dc5ada82b70b59d, 0xf020000000000000)
    case 5 => Whole(1, 5, 11, 0xc35, 0x800, 0xc5371912364ce305, 0x6c28000000000000)
    case 6 => Whole(1, 6, 13, 0x3d09, 0x2000, 0xf684df56c3e01bc6, 0xc732000000000000)
    case 7 => Whole(1, 7, 16, 0x1312d, 0x10000, 0x9a130b963a6c115c, 0x3c7f400000000000)
    case 8 => Whole(1, 8, 18, 0x5f5e1, 0x40000, 0xc097ce7bc90715b3, 0x4b9f100000000000)
    case 9 => Whole(1, 9, 20, 0x1dcd65, 0x100000, 0xf0bdc21abb48db20, 0x1e86d40000000000)
    case 10 => Whole(1, 10, 23, 0x9502f9, 0x800000, 0x96769950b50d88f4, 0x1314448000000000)
    case 11 => Whole(1, 11, 25, 0x2e90edd, 0x2000000, 0xbc143fa4e250eb31, 0x17d955a000000000)
    case 12 => Whole(1, 12, 27, 0xe8d4a51, 0x8000000, 0xeb194f8e1ae525fd, 0x5dcfab0800000000)
    case 13 => Whole(1, 13, 30, 0x48c27395, 0x40000000, 0x92efd1b8d0cf37be, 0x5aa1cae500000000)
  }

  function From42(i: nat): (r: Row)
    requires i < 14
    ensures IsRow(42 + i, r)
  {
    hide IsRow;
    match i
    case 0 => Whole(1, 14, 32, 0x16bcc41e9, 0x100000000, 0xb7abc627050305ad, 0xf14a3d9e40000000)
    case 1 => Whole(1, 15, 34, 0x71afd498d, 0x400000000, 0xe596b7b0c643c719, 0x6d9ccd05d0000000)
    case 2 => Whole(1, 16, 37, 0x2386f26fc1, 0x2000000000, 0x8f7e32ce7bea5c6f, 0xe4820023a2000000)
    case 3 => Whole(1, 17, 39, 0xb1a2bc2ec5, 0x8000000000, 0xb35dbf821ae4f38b, 0xdda2802c8a800000)
    case 4 => Whole(1, 18, 41, 0x3782dace9d9, 0x20000000000, 0xe0352f62a19e306e, 0xd50b2037ad200000)
    case 5 => Whole(1, 19, 44, 0x1158e460913d, 0x100000000000, 0x8c213d9da502de45, 0x4526f422cc340000)
    case 6 => Whole(1, 20, 46, 0x56bc75e2d631, 0x400000000000, 0xaf298d050e4395d6, 0x9670b12b7f410000)
    case 7 => Whole(1, 21, 48, 0x1b1ae4d6e2ef5, 0x1000000000000, 0xdaf3f04651d47b4c, 0x3c0cdd765f114000)
    case 8 => Whole(1, 22, 51, 0x878678326eac9, 0x8000000000000, 0x88d8762bf324cd0f, 0xa5880a69fb6ac800)
    case 9 => Whole(1, 23, 53, 0x2a5a058fc295ed, 0x20000000000000, 0xab0e93b6efee0053, 0x8eea0d047a457a00)
    case 10 => Whole(1, 24, 55, 0xd3c21bcecceda1, 0x80000000000000, 0xd5d238a4abe98068, 0x72a4904598d6d880)
    case 11 => Whole(1, 25, 58, 0x422ca8b0a00a425, 0x400000000000000, 0x85a36366eb71f041, 0x47a6da2b7f864750)
    case 12 => Whole(1, 26, 60, 0x14adf4b7320334b9, 0x1000000000000000, 0xa70c3c40a64e6c51, 0x999090b65f67d924)
    case 13 => Whole(1, 27, 62, 0x6765c793fa10079d, 0x4000000000000000, 0xd0cf4b50cfe20765, 0xfff4b4e3f741cf6d)
  }

  function From56(i: nat): (r: Row)
    requires i < 14
    ensures IsRow(56 + i, r)
  {
    hide IsRow;
    match i
    case 0 => Cut(2, 0, 0, 0x1, 0x1, 0x82818f1281ed449f, 0xbff8f10e7a8921a4,
      0x3ec9fae8a17e1fc0b, 0x3955b12248a5abb34, 0x10012c24773a7e4, 0xe9d4416571e54d)
    case 1 => Cut(2, 1, 2, 0x5, 0x4, 0xa321f2d7226895c7, 0xaff72d52192b6a0d,
      0x11fc6af5046fb6be5, 0x3d4bc245ef219777, 0x5bb0d59c2f6828, 0x1387aecdd964cb)
    case 2 => Cut(2, 2, 4, 0x19, 0x10, 0xcbea6f8ceb02bb39, 0x9bf4f8a69f764490,
      0x17954c4e8104cf508, 0x9ba0f37ff334d4b9, 0x9647e205bb9689, 0x3dfb9302bea3a0)
    case 3 => Cut(2, 3, 6, 0x7d, 0x40, 0xfee50b7025c36a08, 0x2f236d04753d5b4,
      0x16c1dcbb9a185e5ea, 0x9ba0f37ff334d4b9, 0xb545ab871ae859, 0x4d7a77c36e4c88)
    case 4 => Cut(2, 4, 9, 0x271, 0x200, 0x9f4f2726179a2245, 0x1d762422c946590,
      0x16cb4bddc478c460d, 0x9ba0f37ff334d4b9, 0x717a82bc1a6562, 0x306c8ada24efd5)
    case 5 => Cut(2, 5, 11, 0xc35, 0x800, 0xc722f0ef9d80aad6, 0x424d3ad2b7b97ef5,
      0x1191339b75902e585, 0x71d0316d7bf02475, 0x6d52277a2643f4, 0x2c442f9830ce67)
    case 6 => Cut(2, 6, 13, 0x3d09, 0x2000, 0xf8ebad2b84e0d58b, 0xd2e0898765a7deb2,
      0x1191339b75902e585, 0x5b0cf4579659b6c4, 0x88a6b158afd4f1, 0x2c442f9830ce67)
    case 7 => Cut(2, 7, 16, 0x1312d, 0x10000, 0x9b934c3b330c8577, 0x63cc55f49f88eb2f,
      0x1774b865591bee993, 0x174202e0eef5c9c49, 0x7209553a93c086, 0x7112cc968c6617)
    case 8 => Cut(2, 8, 18, 0x5f5e1, 0x40000, 0xc2781f49ffcfa6d5, 0x3cbf6b71c76b25fb,
      0x17606fc9fb731310f, 0x1737de9340215c007, 0x8e106637350370, 0x8d19dd932da901)
    case 9 => Cut(2, 9, 20, 0x1dcd65, 0x100000, 0xf316271c7fc3908a, 0x8bef464e3945ef7a,
      0x17606fc9fb731310f, 0xde6354d676a12969, 0xb1947fc502444c, 0x6995c405606825)
    case 10 => Cut(2, 10, 23, 0x9502f9, 0x800000, 0x97edd871cfda3a56, 0x97758bf0e3cbb5ac,
      0x2ec0df93f6e62621e, 0x2bd8c7257f8f8ff69, 0xddf99fb642d55f, 0xd02cd1cf122fd5)
    case 11 => Cut(2, 11, 25, 0x2e90edd, 0x2000000, 0xbde94e8e43d0c8ec, 0x3d52eeed1cbea317,
      0x16c5486f703bae4a3, 0x10f51792818e81f39, 0x8723382fb68c61, 0x64a3356dbcee88)
    case 12 => Cut(2, 12, 27, 0xe8d4a51, 0x8000000, 0xed63a231d4c4fb27, 0x4ca7aaa863ee4bdd,
      0x18ffdcfa27358c366, 0x10f51792818e81f39, 0xb974d2e69503a5, 0x7dcc02c92c2a2a)
    case 13 => Cut(2, 13, 30, 0x48c27395, 0x40000000, 0x945e455f24fb1cf8, 0x8fe8caa93e74ef6a,
      0x510bd27124f8aa652, 0x4a70185d95995919b, 0x177c56fb7ede0b1, 0x15921bb576e250d)
  }

  function From70(i: nat): (r: Row)
    requires i < 14
    ensures IsRow(70 + i, r)
  {
    hide IsRow;
    match i
    case 0 => Cut(2, 14, 32, 0x16bcc41e9, 0x100000000, 0xb975d6b6ee39e436, 0xb3e2fd538e122b44,
      0x42289a5e6d7398933, 0x3b8ce04ade144747c, 0x17f6e5cd00dcf9a, 0x15921bb576e250d)
    case 1 => Cut(2, 15, 34, 0x71afd498d, 0x400000000, 0xe7d34c64a9c85d44, 0x60dbbca87196b616,
      0x1002c2d81aff407da, 0x3ddebc3f215869, 0x73fda6f5b02995, 0x1c0386744986)
    case 2 => Cut(2, 16, 37, 0x2386f26fc1, 0x2000000000, 0x90e40fbeea1d3a4a, 0xbc8955e946fe31cd,
      0x10004f8503a5b94b1, 0x317efcff4de054, 0x48736fecc05321, 0xe01c33a24c3)
    case 3 => Cut(2, 17, 39, 0xb1a2bc2ec5, 0x8000000000, 0xb51d13aea4a488dd, 0x6babab6398bdbe41,
      0x1fc16a2e22757b933, 0x152fbc092c3f7a692, 0xb3badb6552d704, 0x77e93fde42cc9d)
    case 4 => Cut(2, 18, 41, 0x3782dace9d9, 0x20000000000, 0xe264589a4dcdab14, 0xc696963c7eed2dd1,
      0x26a3d1b2bc0b39f4d4, 0x263e33922869c202fd, 0x1115e23ea719a265, 0x10e8f387cdc4eca4)
    case 5 => Cut(2, 19, 44, 0x1158e460913d, 0x100000000000, 0x8d7eb76070a08aec, 0xfc1e1de5cf543ca2,
      0x1373710ba12c9b1be, 0xfadcf9f17c7aee7d, 0x5601b01f293a71, 0x4553f10fbf292a)
    case 6 => Cut(2, 20, 46, 0x56bc75e2d631, 0x400000000000, 0xb0de65388cc8ada8, 0x3b25a55f43294bcb,
      0x11301030e85673c97, 0xe2b8f0d4738ea063, 0x5effccdb63fc18, 0x4e520dcbf9ead1)
    case 7 => Cut(2, 21, 48, 0x1b1ae4d6e2ef5, 0x1000000000000, 0xdd15fe86affad912, 0x49ef0eb713f39ebe,
      0x1df7fca81d6cbfba75, 0x1dc0fc744db877e18a, 0xcf0d42056241df7, 0xcd9142d1f4b1ef1)
    case 8 => Cut(2, 22, 51, 0x878678326eac9, 0x8000000000000, 0x8a2dbf142dfcc7ab, 0x6e3569326c784337,
      0x3c3cf998c409173e33, 0x3c10f96f5112775d77, 0x1041d11d3bab049a, 0x1035f123a03e8517)
    case 9 => Cut(2, 23, 53, 0x2a5a058fc295ed, 0x20000000000000, 0xacb92ed9397bf996, 0x49c2c37f07965404,
      0xbfa98412c6bf7e5bf, 0xb4a979b60917862cf, 0x40a844a81348165, 0x3cf246a781603d6)
    case 10 => Cut(2, 24, 55, 0xd3c21bcecceda1, 0x80000000000000, 0xd7e77a8f87daf7fb, 0xdc33745ec97be906,
      0x28884fafe747e4823, 0x251075ecd7efe8486, 0x111790aa294bfbd, 0xfa12b517910baf)
    case 11 => Cut(2, 25, 58, 0x422ca8b0a00a425, 0x400000000000000, 0x86f0ac99b4e8dafd, 0x69a028bb3ded71a3,
      0x193aefa7eace51973, 0xb5b889bad6e60aff, 0x6a648daa8b3486, 0x2fe4b7cf01f263)
    case 12 => Cut(2, 26, 60, 0x14adf4b7320334b9, 0x1000000000000000, 0xa8acd7c0222311bc, 0xc40832ea0d68ce0c,
      0x3072c6f5c8db63022, 0x2ff200df45ab12f71, 0xff60441dd4b38f, 0xfcb97c9ab2df9f)
    case 13 => Cut(2, 27, 62, 0x6765c793fa10079d, 0x4000000000000000, 0xd2d80db02aabd62b, 0xf50a3fa490c30190,
      0x268eb65539029596e, 0x260df03eb5d2458bd, 0xfe0ce05c43c997, 0xfabc66f85980ab)
  }

  function From84(i: nat): (r: Row)
    requires i < 14
    ensures IsRow(84 + i, r)
  {
    hide IsRow;
    match i
    case 0 => Cut(3, 0, 0, 0x1, 0x1, 0x83c7088e1aab65db, 0x792667c6da79e0fa,
      0x1ef253157b0bbae15, 0x1df0c6e874ab1acb3, 0x7f707f5a9f2de9, 0x7b4be79dba52c2)
    case 1 => Cut(3, 1, 2, 0x5, 0x4, 0xa4b8cab1a1563f52, 0x577001b891185938,
      0x1ff3df42816c5af77, 0x125de29d7bc0834f9, 0xa47a5cdd650b54, 0x5e8b3994be2ba5)
    case 2 => Cut(3, 2, 4, 0x19, 0x10, 0xcde6fd5e09abcf26, 0xed4c0226b55e6f86,
      0x1b7974fefd2bc0a2a, 0x16ff0abb78eb264dd, 0xb0c8680370b14f, 0x93f7dbf2231475)
    case 3 => Cut(3, 3, 7, 0x7d, 0x80, 0x80b05e5ac60b6178, 0x544f8158315b05b4,
      0x10c66409684bd6333, 0x1234504a8b693201, 0x437604c2309379, 0x49359691174a8)
    case 4 => Cut(3, 4, 9, 0x271, 0x200, 0xa0dc75f1778e39d6, 0x696361ae3db1c721,
      0x30396cd0ca80d4c1b, 0x20875f8cbf3d698bd, 0xf26b5c9dea7729, 0xa384f8550e400c)
    case 5 => Cut(3, 5, 11, 0xc35, 0x800, 0xc913936dd571c84c, 0x3bc3a19cd1e38e9,
      0x130fea85c8dbd1471, 0xd777506f6619844c, 0x77c7a25e1fc720, 0x549e940c3208ef)
    case 6 => Cut(3, 6, 13, 0x3d09, 0x2000, 0xfb5878494ace3a5f, 0x4ab48a04065c723,
      0x130fea85c8dbd1471, 0xac5f738c51ae0370, 0x95b98af5a7b8e8, 0x549e940c3208ef)
    case 7 => Cut(3, 7, 16, 0x1312d, 0x10000, 0x9d174b2dcec0e47b, 0x62eb0d64283f9c76,
      0x130fea85c8dbd1471, 0xd6cc30cdfff09b03, 0x5d93f6d988d391, 0x41e762ad7d11d2)
    case 8 => Cut(3, 8, 18, 0x5f5e1, 0x40000, 0xc45d1df942711d9a, 0x3ba5d0bd324f8394,
      0x1019419278a2aed43, 0x6e17389c744bb3b, 0x62c98a1bfdf300, 0x2a38e95596395)
    case 9 => Cut(3, 9, 20, 0x1dcd65, 0x100000, 0xf5746577930d6500, 0xca8f44ec7ee36479,
      0x766f23a73d01423fd, 0x6c35d6adabf3fbbdb, 0x38c71b362ff6355, 0x33e05cdea29226e)
    case 10 => Cut(3, 10, 23, 0x9502f9, 0x800000, 0x9968bf6abbe85f20, 0x7e998b13cf4e1ecb,
      0x21e920e7d073ed5bb, 0x13f0faeae8f194021, 0xa291a5d7e5d4fb, 0x5f99762b823a6e)
    case 11 => Cut(3, 11, 25, 0x2e90edd, 0x2000000, 0xbfc2ef456ae276e8, 0x9e3fedd8c321a67e,
      0x6aea25e2d36f249b9, 0x6156b14eaea449aa8, 0x280b0dd14461541, 0x2474e67b333b95f)
    case 12 => Cut(3, 12, 27, 0xe8d4a51, 0x8000000, 0xefb3ab16c59b14a2, 0xc5cfe94ef3ea101e,
      0x1326e9284995b5e22, 0xe09b16b19657dd17, 0x8f762572ade5b5, 0x6927365e1e3211)
    case 13 => Cut(3, 13, 30, 0x48c27395, 0x40000000, 0x95d04aee3b80ece5, 0xbba1f1d158724a12,
      0x1263dbf82494b3255, 0x8296c7dc4344303f, 0x5618ac610cd638, 0x263601875935ab)
  }

  function From98(i: nat): (r: Row)
    requires i < 14
    ensures IsRow(98 + i, r)
  {
    hide IsRow;
    match i
    case 0 => Cut(3, 14, 32, 0x16bcc41e9, 0x100000000, 0xbb445da9ca61281f, 0x2a8a6e45ae8edc97,
      0x1263dbf82494b3255, 0x68789fe3690359cc, 0x6b9ed779500bc6, 0x263601875935ab)
    case 1 => Cut(3, 15, 34, 0x71afd498d, 0x400000000, 0xea1575143cf97226, 0xf52d09d71a3293bd,
      0x13ef84c515b7209b4, 0xb836b2f7bfdfdc39, 0x91d4d900a94171, 0x5438b82959d372)
    case 2 => Cut(3, 16, 37, 0x2386f26fc1, 0x2000000000, 0x924d692ca61be758, 0x593c2626705f9c56,
      0x99d039b0243c2a8fd, 0x94244d379abf5045a, 0x2bf3a1dc84f3147, 0x2a54bfe8d501b59)
    case 3 => Cut(3, 17, 39, 0xb1a2bc2ec5, 0x8000000000, 0xb6e0c377cfa2e12e, 0x6f8b2fb00c77836c,
      0x40eda4f52dc960cc7, 0x3595cc041acfac381, 0x1730fa65066e916, 0x1323c583ce93243)
    case 4 => Cut(3, 18, 41, 0x3782dace9d9, 0x20000000000, 0xe498f455c38b997a, 0xb6dfb9c0f956447,
      0x1185de2b10bf5b977, 0x73236bce6574074d, 0x7d2d909dd895af, 0x33682b78152eee)
    case 5 => Cut(3, 19, 44, 0x1158e460913d, 0x100000000000, 0x8edf98b59a373fec, 0x4724bd4189bd5eac,
      0x16777bf30ef71466b, 0x1115724ce2c6b2135, 0x644f31e5651621, 0x4c468a3088ae7c)
    case 6 => Cut(3, 20, 46, 0x56bc75e2d631, 0x400000000000, 0xb2977ee300c50fe7, 0x58edec91ec2cb657,
      0x59ddefcc3bdc519ac, 0x4b4f704c5d3e64e61, 0x1f58bf97af96ea5, 0x1a44e6a21b68423)
    case 7 => Cut(3, 21, 48, 0x1b1ae4d6e2ef5, 0x1000000000000, 0xdf3d5e9bc0f653e1, 0x2f2967b66737e3ed,
      0x1d1cfeffbd3bd9696, 0x1b3679d1c592f904b, 0xcb19e65f274a45, 0xbdd7d13a8a8771)
    case 8 => Cut(3, 22, 51, 0x878678326eac9, 0x8000000000000, 0x8b865b215899f46c, 0xbd79e0d20082ee74,
      0x186e4f1b5f2ece2a5, 0x14a144bf6fdd0d60f, 0x6a85bb1d4e6e32, 0x59f320af8a7aa9)
    case 9 => Cut(3, 23, 53, 0x2a5a058fc295ed, 0x20000000000000, 0xae67f1e9aec07187, 0xecd8590680a3aa11,
      0x240c7648a5a316090, 0x1da462519945d2e33, 0xc478dbccd8e8db, 0xa18e1fcea3538a)
    case 10 => Cut(3, 24, 55, 0xd3c21bcecceda1, 0x80000000000000, 0xda01ee641a708de9, 0xe80e6f4820cc9495,
      0x65bd4ee2e48bfef53, 0x5d3f99a2f42586b8a, 0x2b51fcd426a6e90, 0x27b46e74fa6cf05)
    case 11 => Cut(3, 25, 58, 0x422ca8b0a00a425, 0x400000000000000, 0x884134fe908658b2, 0x3109058d147fdcdd,
      0x36480e5aa8dbf3296, 0x2f7540883bb00bcbd, 0xe720d9435e3b2f, 0xca1307062449eb)
    case 12 => Cut(3, 26, 60, 0x14adf4b7320334b9, 0x1000000000000000, 0xaa51823e34a7eede, 0xbd4b46f0599fd415,
      0x2e2791031927ebe02, 0x2754c330abfc04829, 0xf5a7c261fb33d1, 0xd1567b9572c63c)
    case 13 => Cut(3, 27, 62, 0x6765c793fa10079d, 0x4000000000000000, 0xd4e5e2cdc1d1ea96, 0x6c9e18ac7007c91a,
      0x12c8a38d9ddf0cafd, 0xa460fd1870e7be96, 0x7cf82c7e6d8cb9, 0x4459f6fe30f589)
  }

  function From112(i: nat): (r: Row)
    requires i < 14
    ensures IsRow(112 + i, r)
  {
    hide IsRow;
    match i
    case 0 => Cut(4, 0, 0, 0x1, 0x1, 0x850fadc09923329e, 0x3e2cf6bc604ddb0,
      0x18f2ad0b554e23d57, 0x1070194f3e7d930f0, 0x67bcd86e56d407, 0x4459f6fe30f589)
    case 1 => Cut(4, 1, 2, 0x5, 0x4, 0xa6539930bf6bff45, 0x84db8346b786151c,
      0x110527782da1218ce, 0x4df862d47a21dde5, 0x587733985eac3b, 0x195443230f0325)
    case 2 => Cut(4, 2, 4, 0x19, 0x10, 0xcfe87f7cef46ff16, 0xe612641865679a63,
      0x11fea8b46f27f452f, 0x3e604f1061b4b184, 0x74ea11473a1813, 0x195443230f0325)
    case 3 => Cut(4, 3, 7, 0x7d, 0x80, 0x81f14fae158c5f6e, 0x4fcb7e8f3f60c07e,
      0xf803f61f53b2fbec9, 0xe905425b816c6a67b, 0x3ef1e3f92e98213, 0x3b23a6755483820)
    case 4 => Cut(4, 4, 9, 0x271, 0x200, 0xa26da3999aef7749, 0xe3be5e330f38f09d,
      0x10228c240a034327b, 0x93c9242670695416, 0x51e62da13a973f, 0x2ee249fb3b166b)
    case 5 => Cut(4, 5, 11, 0xc35, 0x800, 0xcb090c8001ab551c, 0x5cadf5bfd3072cc5,
      0x15ad4a4be16d9cb55, 0x763a8351f3877678, 0x89897085f58ddf, 0x2ee249fb3b166b)
    case 6 => Cut(4, 6, 13, 0x3d09, 0x2000, 0xfdcb4fa002162a63, 0x73d9732fc7c8f7f6,
      0x346ad75f4d36e61a8, 0x318f508df32c450af, 0x19fb9befd9c5eff, 0x1890ff55aedc122)
    case 7 => Cut(4, 7, 16, 0x1312d, 0x10000, 0x9e9f11c4014dda7e, 0x2867e7fddcdd9afa,
      0x11e9bcccf98d03fa9, 0xcf7430f22c4ff78a, 0x58cb1f880f4c67, 0x40454ee2b5837d)
    case 8 => Cut(4, 8, 18, 0x5f5e1, 0x40000, 0xc646d63501a1511d, 0xb281e1fd541501b8,
      0x1011f3748006d6815, 0x62cfff8d276cd7d7, 0x6392a53811aa42, 0x26441b9ab133f9)
    case 9 => Cut(4, 9, 20, 0x1dcd65, 0x100000, 0xf7d88bc24209a565, 0x1f225a7ca91a4226,
      0x1e633091513f4ca83, 0x18b3ffe349db35f5c, 0xeb5b4120d3086a, 0xbf548a057603dd)
    case 10 => Cut(4, 10, 23, 0x9502f9, 0x800000, 0x9ae757596946075f, 0x3375788de9b06958,
      0x10b3d3f88ccfca6ba, 0x250fb3cb5a754d7b, 0x50da2bd5e34461, 0xb3677fc6c5b31)
    case 11 => Cut(4, 11, 25, 0x2e90edd, 0x2000000, 0xc1a12d2fc3978937, 0x52d6b1641c83ae,
      0x270fcd92b83d455e1, 0x19b323ff1463d6a19, 0xec5c0e87b86e08, 0x9b81e2b1d529a7)
    case 12 => Cut(4, 12, 27, 0xe8d4a51, 0x8000000, 0xf209787bb47d6b84, 0xc0678c5dbd23a49a,
      0x13523ce6d0f96bef9, 0x4ef642af9d0f65ba, 0x9223a471c2befe, 0x2553db6df8f2a3)
    case 13 => Cut(4, 13, 30, 0x48c27395, 0x40000000, 0x9745eb4d50ce6332, 0xf840b7ba963646e0,
      0x34b65e229e0231c57, 0x32d27a05a4f0b1ed6, 0xf92fb908f37bb0, 0xf0403b56396079)
  }

  function From126(i: nat): (r: Row)
    requires i < 14
    ensures IsRow(126 + i, r)
  {
    hide IsRow;
    match i
    case 0 => Cut(4, 14, 32, 0x16bcc41e9, 0x100000000, 0xbd176620a501fbff, 0xb650e5a93bc3d898,
      0xd5d4c7b719c338103, 0xcb49e81693c2c7b58, 0x4ef8d16f15bc149, 0x4b14128af1ee25d)
    case 1 => Cut(4, 15, 34, 0x71afd498d, 0x400000000, 0xec5d3fa8ce427aff, 0xa3e51f138ab4cebe,
      0xa8f4d9726035affad, 0x9e69f9d1da353fa02, 0x4dffa1b60cc898e, 0x4921b318e0072e7)
    case 2 => Cut(4, 16, 37, 0x2386f26fc1, 0x2000000000, 0x93ba47c980e98cdf, 0xc66f336c36b10137,
      0x14cedfd70bd236659, 0xcb4d2a2a0d6a8e33, 0x600f7566f828de, 0x3aa89f249a74e1)
    case 3 => Cut(4, 17, 39, 0xb1a2bc2ec5, 0x8000000000, 0xb8a8d9bbe123f017, 0xb80b0047445d4184,
      0x1368c3215cf86f24f, 0xc01c447c969c542e, 0x7000cc10a5b989, 0x45498395b8d553)
    case 4 => Cut(4, 18, 41, 0x3782dace9d9, 0x20000000000, 0xe6d3102ad96cec1d, 0xa60dc059157491e5,
      0x2556867d9c6def831, 0x226086f3616811f57, 0x10d542c0ae316c9, 0xf7f887cd6ca4ae)
    case 5 => Cut(4, 19, 44, 0x1158e460913d, 0x100000000000, 0x9043ea1ac7e41392, 0x87c89837ad68db2f,
      0x11ff145875e941749, 0x5b0e7f96245aaf87, 0x51220d49004278, 0x19a827ea4ff80f)
    case 6 => Cut(4, 20, 46, 0x56bc75e2d631, 0x400000000000, 0xb454e4a179dd1877, 0x29babe4598c311fb,
      0x1df674d5b840c6106, 0x1a5d0a5da0abb8f91, 0xa8d9ce380ff987, 0x94914ae5cfe8e9)
    case 7 => Cut(4, 21, 48, 0x1b1ae4d6e2ef5, 0x1000000000000, 0xe16a1dc9d8545e94, 0xf4296dd6fef3d67a,
      0x38537f3358ec7f097, 0x36e2ee3682b0e0335, 0x18cc5df6557db0c, 0x182a19dbc37d2bd)
    case 8 => Cut(4, 22, 51, 0x878678326eac9, 0x8000000000000, 0x8ce2529e2734bb1d, 0x1899e4a65f58660c,
      0x15a193c04b762aa13, 0xa1d0bd9999933f03, 0x5f3be365bb20c5, 0x2c869b181af73a)
    case 9 => Cut(4, 23, 53, 0x2a5a058fc295ed, 0x20000000000000, 0xb01ae745b101e9e4, 0x5ec05dcff72e7f8f,
      0x114e0fcd092b554dc, 0x17603f3150389495, 0x5f3be365bb20c5, 0x80a502b4424a6)
    case 10 => Cut(4, 24, 55, 0xd3c21bcecceda1, 0x80000000000000, 0xdc21a1171d42645d, 0x76707543f4fa1f73,
      0x26fe2b73516146777, 0x17fae873393bc7983, 0x10c3c6520935b5b, 0xa4f6318f9415f0)
    case 11 => Cut(4, 25, 58, 0x422ca8b0a00a425, 0x400000000000000, 0x899504ae72497eba, 0x6a06494a791c53a8,
      0x1362ae1cd0ca7d7ad, 0x4cbc8170b725b1e7, 0x5358bfbc17a181, 0x149ec631f282be)
    case 12 => Cut(4, 26, 60, 0x14adf4b7320334b9, 0x1000000000000000, 0xabfa45da0edbde69, 0x487db9d17636892,
      0x1063143501b86fce5, 0x997902e16e4b63ce, 0x58119dce6d76ec, 0x338cef7cde46db)
    case 13 => Cut(4, 27, 62, 0x6765c793fa10079d, 0x4000000000000000, 0xd6f8d7509292d603, 0x45a9d2845d3c42b6,
      0x2cec48cd8f7638dfa, 0x29a544c2f58488e99, 0x12dc97c578e1dbd, 0x117c514e3f2c002)
  }

  function From140(i: nat): (r: Row)
    requires i < 14
    ensures IsRow(140 + i, r)
  {
    hide IsRow;
    match i
    case 0 => Cut(5, 0, 0, 0x1, 0x1, 0x865b86925b9bc5c2, 0xb8a2392ba45a9b2,
      0x1420b5e6c1b3c80af, 0xe094b78b3da10656, 0x54828b609beae5, 0x3aef117f2f0123)
    case 1 => Cut(5, 1, 2, 0x5, 0x4, 0xa7f26836f282b732, 0x8e6cac7768d7141e,
      0x101a2b1f015ca008c, 0x1f5ab2172d4985ed, 0x54828b609beae5, 0xa48ed5685d140)
    case 2 => Cut(5, 2, 4, 0x19, 0x10, 0xd1ef0244af2364ff, 0x3207d795430cd926,
      0x1033a111fc9e4239d, 0x64556d16f751ac9, 0x6a4a36be78b409, 0x2923b55a17450)
    case 3 => Cut(5, 3, 7, 0x7d, 0x80, 0x8335616aed761f1f, 0x7f44e6bd49e807b8,
      0x10085411b22c3642b, 0x141115d164a9ef5, 0x41bcd6c2801913, 0x52476ab42e8a)
    case 4 => Cut(5, 4, 9, 0x271, 0x200, 0xa402b9c5a8d3a6e7, 0x5f16206c9c6209a6,
      0x100700803db168a87, 0x806d586f510c62, 0x5225400cbec052, 0x2923b55a1745)
    case 5 => Cut(5, 5, 11, 0xc35, 0x800, 0xcd036837130890a1, 0x36dba887c37a8c0f,
      0x10091fcf5e75e4d27, 0x201b561bd443188, 0x66bc28dcb12e72, 0xcdb28ac27459)
    case 6 => Cut(5, 6, 14, 0x3d09, 0x4000, 0x802221226be55a64, 0xc2494954da2c9789,
      0x10cd666c752bfd56b, 0x100dab0dea218c40, 0x434785548c705c, 0x4047cb5cc45bd)
    case 7 => Cut(5, 7, 16, 0x1312d, 0x10000, 0xa02aa96b06deb0fd, 0xf2db9baa10b7bd6c,
      0x1127d827a0a766e5e, 0xa95a1758d97e4faf, 0x55de17e5a5c2c7, 0x34fa43b9518fbc)
    case 8 => Cut(5, 8, 18, 0x5f5e1, 0x40000, 0xc83553c5c8965d3d, 0x6f92829494e5acc7,
      0x21ccbab922cd61399, 0x16312e175832a31a4, 0xd377e29648b15b, 0x8ad85b9ef75283)
    case 9 => Cut(5, 9, 20, 0x1dcd65, 0x100000, 0xfa42a8b73abbf48c, 0xcb772339ba1f17f9,
      0x1b0a2efa823de7614, 0xf6ea258b7a32941f, 0xd377e29648b15b, 0x78b079e122facd)
    case 10 => Cut(5, 10, 23, 0x9502f9, 0x800000, 0x9c69a97284b578d7, 0xff2a760414536efb,
      0x135d27a6daacc4f75, 0x7b3e33975116e8ea, 0x5ea61180cb1c50, 0x25a662c3480fc3)
    case 11 => Cut(5, 11, 25, 0x2e90edd, 0x2000000, 0xc38413cf25e2d70d, 0xfef5138519684aba,
      0x360c22e141150cfce, 0x322cb48caef27f31d, 0x14a39081198f947, 0x1328f83b1663233)
    case 12 => Cut(5, 12, 27, 0xe8d4a51, 0x8000000, 0xf46518c2ef5b8cd1, 0x7eb258665fc25d69,
      0xcc9240874dec8a925, 0xcbcbf74330b26e368, 0x61a6177ef3e73d8, 0x6147716d731c213)
    case 13 => Cut(5, 13, 30, 0x48c27395, 0x40000000, 0x98bf2f79d5993802, 0xef2f773ffbd97a61,
      0x2a274eee718c49169, 0x23f504cd87bb66381, 0xc9369015f48040, 0xaba2aa9db50767)
  }

  function From154(i: nat): (r: Row)
    requires i < 14
    ensures IsRow(154 + i, r)
  {
    hide IsRow;
    match i
    case 0 => Cut(5, 14, 32, 0x16bcc41e9, 0x100000000, 0xbeeefb584aff8603, 0xaafb550ffacfd8fa,
      0x2a274eee718c49169, 0x1cc403d79fc91e934, 0xfb84341b71a050, 0xaba2aa9db50767)
    case 1 => Cut(5, 15, 34, 0x71afd498d, 0x400000000, 0xeeaaba2e5dbf6784, 0x95ba2a53f983cf38,
      0x2a274eee718c49169, 0x27dfbc3f13a5cf4ba, 0x13a6541224e0864, 0x12964c4ab6dd78f)
    case 2 => Cut(5, 16, 37, 0x2386f26fc1, 0x2000000000, 0x952ab45cfa97a0b2, 0xdd945a747bf26183,
      0x2bfa2aadefde441f5, 0x2854732ef33a4e0dd, 0xccff86f0e0dda9, 0xbbff0a7a00acd4)
    case 3 => Cut(5, 17, 39, 0xb1a2bc2ec5, 0x8000000000, 0xba756174393d88df, 0x94f971119aeef9e4,
      0x16a7c1d223351b159, 0x810e3d630a542cf9, 0x840230f0e11f5e, 0x2effc29e802b35)
    case 4 => Cut(5, 18, 41, 0x3782dace9d9, 0x20000000000, 0xe912b9d1478ceb17, 0x7a37cd5601aab85d,
      0x136dcd160fbfcd28f, 0x673e97826ea9bd94, 0x8d82dbddd9519b, 0x2effc29e802b35)
    case 5 => Cut(5, 19, 44, 0x1158e460913d, 0x100000000000, 0x91abb422ccb812ee, 0xac62e055c10ab33a,
      0x19d342d02110d4847, 0x19cc08f116440a459, 0x758fd90c8b8604, 0x756ef40bf55205)
    case 6 => Cut(5, 20, 46, 0x56bc75e2d631, 0x400000000000, 0xb616a12b7fe617aa, 0x577b986b314d6009,
      0x10c7835c52caf12cc4, 0x1074df53526121b7e9, 0x5f7a98ca026ca39, 0x5da45965d03e8b8)
    case 7 => Cut(5, 21, 48, 0x1b1ae4d6e2ef5, 0x1000000000000, 0xe39c49765fdf9d94, 0xed5a7e85fda0b80b,
      0x11957035b8b9843a7, 0x313920a61ba58fc5, 0x7d11f4de0fff63, 0x15e1da719e6822)
    case 8 => Cut(5, 22, 51, 0x878678326eac9, 0x8000000000000, 0x8e41ade9fbebc27d, 0x14588f13be847307,
      0x607143f98ab3a0b71, 0x58cb2d152d4426d3a, 0x1acbc8fdaf1d1d4, 0x18abbd7553a04f7)
    case 9 => Cut(5, 23, 53, 0x2a5a058fc295ed, 0x20000000000000, 0xb1d219647ae6b31c, 0x596eb2d8ae258fc8,
      0x107e89a202dac6e92, 0x70ce8f7b97190525, 0x5ba834c5fd4adb, 0x272db2eb4cdabb)
    case 10 => Cut(5, 24, 55, 0xd3c21bcecceda1, 0x80000000000000, 0xde469fbd99a05fe3, 0x6fca5f8ed9aef3bb,
      0x859bfd5f037e5dbca, 0x7e14894393a8128fd, 0x3a0110df41dc451, 0x36bc4ba9224cd8e)
    case 11 => Cut(5, 25, 58, 0x422ca8b0a00a425, 0x400000000000000, 0x8aec23d680043bee, 0x25de7bb9480d5854,
      0x26074d728de673c21, 0x16345368f0cbe5a47, 0xa5181e701675ce, 0x60658279c65c01)
    case 12 => Cut(5, 26, 60, 0x14adf4b7320334b9, 0x1000000000000000, 0xada72ccc20054ae9, 0xaf561aa79a10ae6a,
      0x107cca74164c73023, 0x661595f53b15786d, 0x5978c8d8e8cb74, 0x229fa02453d2c1)
    case 13 => Cut(5, 27, 62, 0x6765c793fa10079d, 0x4000000000000000, 0xd910f7ff28069da4, 0x1b2ba1518094da04,
      0x107cca74164c73023, 0x866d6637a9d29d2b, 0x6fd6fb0f22fe51, 0x38fdd25a8e059e)
  }

  function From168(i: nat): (r: Row)
    requires i < 14
    ensures IsRow(168 + i, r)
  {
    hide IsRow;
    match i
    case 0 => Cut(6, 0, 0, 0x1, 0x1, 0x87aa9aff79042286, 0x90fb44d2f05d0842,
      0x2aee3ba4ccf657f32, 0x29606b4ba7360fd71, 0xb601ed2d57fee1, 0xaf6b5d4b848168)
    case 1 => Cut(6, 1, 2, 0x5, 0x4, 0xa99541bf57452b28, 0x353a1607ac744a53,
      0x1447b88dd0afe6996, 0x7083b949cd763149, 0x6b795e4b3cb91f, 0x254447710da2e1)
    case 2 => Cut(6, 2, 4, 0x19, 0x10, 0xd3fa922f2d1675f2, 0x42889b8997915ce8,
      0x100c1125502db205a, 0x29cba3345e0d541, 0x6a4d38a2b2bf5b, 0x114de01fb0be1)
    case 3 => Cut(6, 3, 7, 0x7d, 0x80, 0x847c9b5d7c2e09b7, 0x69956135febada11,
      0x1b4ff4226d8749adf, 0x10a60b802f1adb221, 0x7114297b1a17e0, 0x44edc3b23de701)
    case 4 => Cut(6, 4, 9, 0x271, 0x200, 0xa59bc234db398c25, 0x43fab9837e699095,
      0x1b4ff4226d8749adf, 0x183e6adab7e5332da, 0x8d5933d9e09dd8, 0x7d77d86fcaf2f1)
    case 5 => Cut(6, 5, 11, 0xc35, 0x800, 0xcf02b2c21207ef2e, 0x94f967e45e03f4bb,
      0x124a1186ac87ed132, 0x301f633eaffc988f, 0x7650ac2b314fa1, 0x1374f18c627c8f)
    case 6 => Cut(6, 6, 14, 0x3d09, 0x4000, 0x8161afb94b44f57d, 0x1d1be0eebac278f5,
      0x4f6ef8eae1f8c0aa1, 0x4b2c90f8c3aa68f14, 0x14129d8083c9a99, 0x12ff124514a2113)
    case 7 => Cut(6, 7, 16, 0x1312d, 0x10000, 0xa1ba1ba79e1632dc, 0x6462d92a69731732,
      0x22543b88d2f8e8195, 0x19cf6ba4965c38a7b, 0xad7f72cd542871, 0x8271b183f5f8a2)
    case 8 => Cut(6, 8, 18, 0x5f5e1, 0x40000, 0xca28a291859bbf93, 0x7d7b8f7503cfdcfe,
      0x12e4c6f13f42ce921, 0xdd54966ae32d42b4, 0x775c25c7a79261, 0x5763f03a97c8d3)
    case 9 => Cut(6, 9, 20, 0x1dcd65, 0x100000, 0xfcb2cb35e702af78, 0x5cda735244c3d43e,
      0x1329d0630d0f072d8, 0x4856aa6f577892ff, 0x97545b54b75bef, 0x23b3eaba07f206)
    case 10 => Cut(6, 10, 23, 0x9502f9, 0x800000, 0x9defbf01b061adab, 0x3a0888136afa64a7,
      0x1b8464b76b8991ccf, 0x185f7c038efb181de, 0x87cfb733ce7c37, 0x784b1312e59c7f)
    case 11 => Cut(6, 11, 25, 0x2e90edd, 0x2000000, 0xc56baec21c7a1916, 0x88aaa1845b8fdd0,
      0x160383c5efa14170c, 0x12de9b121312c7c1b, 0x87cfb733ce7c37, 0x7469ea0aab6491)
    case 12 => Cut(6, 12, 27, 0xe8d4a51, 0x8000000, 0xf6c69a72a3989f5b, 0x8aad549e57273d45,
      0x16a4442486fe90a58, 0x82d395e66f0cea3b, 0xae9b518614ab83, 0x3f0e684f9e7832)
    case 13 => Cut(6, 13, 30, 0x48c27395, 0x40000000, 0x9a3c2087a63f6399, 0x36ac54e2f678864b,
      0x113bbb069cf03bb2b, 0xf792a72fed2fedc1, 0x530fd593483600, 0x4a942f33c3f67d)
  }

  function From182(i: nat): (r: Row)
    requires i < 14
    ensures IsRow(182 + i, r)
  {
    hide IsRow;
    match i
    case 0 => Cut(6, 14, 32, 0x16bcc41e9, 0x100000000, 0xc0cb28a98fcf3c7f, 0x84576a1bb416a7dd,
      0x113bbb069cf03bb2b, 0x209e4f1a0e574de7, 0x67d3caf81a4380, 0xc484f054dcdfd)
    case 1 => Cut(6, 15, 34, 0x71afd498d, 0x400000000, 0xf0fdf2d3f3c30b9f, 0x656d44a2a11c51d5,
      0x113bbb069cf03bb2b, 0xbf88dc54547b4839, 0x81c8bdb620d460, 0x5a27273f61809d)
    case 2 => Cut(6, 16, 37, 0x2386f26fc1, 0x2000000000, 0x969eb7c47859e743, 0x9f644ae5a4b1b325,
      0x113bbb069cf03bb2b, 0xc429805c9ac3c24a, 0x511d7691d484bc, 0x39b4f7d1d94b85)
    case 3 => Cut(6, 17, 39, 0xb1a2bc2ec5, 0x8000000000, 0xbc4665b596706114, 0x873d5d9f0dde1fee,
      0x113bbb069cf03bb2b, 0x2ea2ecec8f67ea2a, 0x6564d43649a5eb, 0x11263c88ef0927)
    case 4 => Cut(6, 18, 41, 0x3782dace9d9, 0x20000000000, 0xeb57ff22fc0c7959, 0xa90cb506d155a7ea,
      0x1660b68d2fefa1323, 0x80f2a555bf5e4222, 0xa493c5f84d9b7e, 0x3b45885f9c5789)
    case 5 => Cut(6, 19, 44, 0x1158e460913d, 0x100000000000, 0x9316ff75dd87cbd8, 0x9a7f12442d588f2,
      0x1999faaf54b862d97, 0xce510889323069d0, 0x75adbdd3179711, 0x3b45885f9c5789)
    case 6 => Cut(6, 20, 46, 0x56bc75e2d631, 0x400000000000, 0xb7dcbf5354e9bece, 0xc11ed6d538aeb2f,
      0x3dbe970e1a9d310ac, 0x3b3401d32718eb651, 0x162c3df5188f535, 0x15429d1f4aa2553)
    case 7 => Cut(6, 21, 48, 0x1b1ae4d6e2ef5, 0x1000000000000, 0xe5d3ef282a242e81, 0x8f1668c8a86da5fa,
      0x1b3d380d648ff2dd3, 0x16280d977d876791d, 0xc3a2805cdafe75, 0x9f215ef4adf6c0)
    case 8 => Cut(6, 22, 51, 0x878678326eac9, 0x8000000000000, 0x8fa475791a569d10, 0xf96e017d694487bc,
      0x19db8202a2e064ed4, 0x16280d977d876791d, 0x7411d0e2840315, 0x6374db58ecba38)
    case 9 => Cut(6, 23, 53, 0x2a5a058fc295ed, 0x20000000000000, 0xb38d92d760ec4455, 0x37c981dcc395a9ac,
      0x1041321702cba26d7, 0x5e6db807abbc5246, 0x5b349a0c48d487, 0x211d7822df143f)
    case 10 => Cut(6, 24, 55, 0xd3c21bcecceda1, 0x80000000000000, 0xe070f78d3927556a, 0x85bbe253f47b1417,
      0x13cbb5ca7fa2b2501, 0x4b8af99fbc96a838, 0x8ad7daa98258d8, 0x211d7822df143f)
    case 11 => Cut(6, 25, 58, 0x422ca8b0a00a425, 0x400000000000000, 0x8c469ab843b89562, 0x93956d7478ccec8e,
      0x13cbb5ca7fa2b2501, 0xf78fb475f835825a, 0x56c6e8a9f17787, 0x43d36ecd3faa75)
    case 12 => Cut(6, 26, 60, 0x14adf4b7320334b9, 0x1000000000000000, 0xaf58416654a6babb, 0x387ac8d1970027b2,
      0x26ba13145f3f1f647, 0x24ff62131f3294ed1, 0xd4346731af378d, 0xcabaaa43565104)
    case 13 => Cut(6, 27, 62, 0x6765c793fa10079d, 0x4000000000000000, 0xdb2e51bfe9d0696a, 0x6997b05fcc0319e,
      0x15b751a63fdfff092, 0x76646d09fd6ea95d, 0x94be05c967a92f, 0x32aeaa90d59441)
  }

  function From196(i: nat): (r: Row)
    requires i < 14
    ensures IsRow(196 + i, r)
  {
    hide IsRow;
    match i
    case 0 => Cut(7, 0, 0, 0x1, 0x1, 0x88fcf317f22241e2, 0x441fece3bdf81f03,
      0x102f80bf5c7789869, 0x316784a641e6b02, 0x4549d438023e77, 0xd37e7a4644e5)
    case 1 => Cut(7, 1, 2, 0x5, 0x4, 0xab3c2fddeeaad25a, 0xd527e81cad7626c3,
      0x4f557009a06e4579d9, 0x4ef708580647233042, 0x1a885c59135a8e8d, 0x1a68c99e481dda81)
    case 2 => Cut(7, 2, 4, 0x19, 0x10, 0xd60b3bd56a5586f1, 0x8a71e223d8d3b074,
      0x140ba46eed8bab7bf9e, 0x140a76564ed194a7db3, 0x8614e52181fedf4b, 0x860d0072cf2fb248)
    case 3 => Cut(7, 3, 7, 0x7d, 0x80, 0x85c7056562757456, 0xf6872d5667844e49,
      0x14d0b67e78f08fdbfeb, 0x14ced323e1606b55673, 0x5704ebef187745a8, 0x56fd074065a818a5)
    case 4 => Cut(7, 4, 9, 0x271, 0x200, 0xa738c6bebb12d16c, 0xb428f8ac016561db,
      0x420ae000d7c3a3f8ef, 0x4192095af3ba82530f, 0x1591dee39542c358, 0x156a677a1736e249)
    case 5 => Cut(7, 5, 11, 0xc35, 0x800, 0xd106f86e69d785c7, 0xe13336d701beba52,
      0x1e35a979024869780, 0x1e14072ca4bf93e63, 0xc5550f763b654b, 0xc4795c1fec5114)
    case 6 => Cut(7, 6, 14, 0x3d09, 0x4000, 0x82a45b450226b39c, 0xecc0024661173473,
      0x4e84cb5e8cd41ab47, 0x4865e1b2210d1f11c, 0x1408ec2b556a213, 0x12791bd86318dd5)
    case 7 => Cut(7, 7, 16, 0x1312d, 0x10000, 0xa34d721642b06084, 0x27f002d7f95d0190,
      0x9bd034cdd0e6cfe1f, 0x995d70ef3f6404d41, 0x31b25a5798f5020, 0x30ea722e1fcc601)
    case 8 => Cut(7, 8, 18, 0x5f5e1, 0x40000, 0xcc20ce9bd35c78a5, 0x31ec038df7b441f4,
      0x1f29a42929c7c32d3, 0x155e94aee3bc96f5b, 0xc6c9695e63d408, 0x8850dc6887216d)
    case 9 => Cut(7, 9, 20, 0x1dcd65, 0x100000, 0xff290242c83396ce, 0x7e67047175a15271,
      0xb312fec468426c3fbe, 0xb2af4650b1565368c7, 0x593e4db2a71e809d, 0x590c9b584f858b9b)
    case 10 => Cut(7, 10, 23, 0x9502f9, 0x800000, 0x9f79a169bd203e41, 0xf0062c6e984d386,
      0x18ee1cedbb0635bdc, 0x16f8fa79a5048c8d5, 0x7c3de1dafe6485, 0x727c6de01cd626)
    case 11 => Cut(7, 11, 25, 0x2e90edd, 0x2000000, 0xc75809c42c684dd1, 0x52c07b78a3e60868,
      0x1343c38e07076142d, 0x3cfbde9e5003ed5b, 0x780268562b12e9, 0x17be617a966e5a)
    case 12 => Cut(7, 12, 27, 0xe8d4a51, 0x8000000, 0xf92e0c3537826145, 0xa7709a56ccdf8a82,
      0x133969959d87f7d593, 0x1268bdad99515cb468, 0x95b2677178e46ff, 0x8f5981855f17c6d)
    case 13 => Cut(7, 13, 30, 0x48c27395, 0x40000000, 0x9bbcc7a142b17ccb, 0x88a66076400bb691,
      0x25f59f399eef2c30d9, 0x254eaf4ccec37ce31d, 0xb8bdab154d70cc8, 0xb591381f408a77f)
  }

  function From210(i: nat): (r: Row)
    requires i < 14
    ensures IsRow(210 + i, r)
  {
    hide IsRow;
    match i
    case 0 => Cut(7, 14, 32, 0x16bcc41e9, 0x100000000, 0xc2abf989935ddbfe, 0x6acff893d00ea435,
      0x1cc5f1362aba0559b, 0xcf609fde031ce155, 0xaf0aa8794d5bf0, 0x4ed9446aba9e7d)
    case 1 => Cut(7, 15, 34, 0x71afd498d, 0x400000000, 0xf356f7ebf83552fe, 0x583f6b8c4124d43,
      0x126782d1775efa157, 0xa5e6e64b35b0b444, 0x8bf40e2ce6146f, 0x4ed9446aba9e7d)
    case 2 => Cut(7, 16, 37, 0x2386f26fc1, 0x2000000000, 0x98165af37b2153de, 0xc3727a337a8b704a,
      0x10e62e10b339f2026, 0x28a5b45ba23a18b1, 0x50512916f55197, 0xc12f7e26938e1)
    case 3 => Cut(7, 17, 39, 0xb1a2bc2ec5, 0x8000000000, 0xbe1bf1b059e9a8d6, 0x744f18c0592e4c5c,
      0x321a13f96e2f716e0, 0x281dea40ccc7369d9, 0x129a697025b5169, 0xee54a71cc80428)
    case 4 => Cut(7, 18, 41, 0x3782dace9d9, 0x20000000000, 0xeda2ee1c7064130c, 0x1162def06f79df73,
      0x17e4af9566ead5692, 0x805fba68f5b0aec5, 0xb16f5bed7c8031, 0x3b9529c732010a)
    case 5 => Cut(7, 19, 44, 0x1158e460913d, 0x100000000000, 0x9485d4d1c63e8be7, 0x8addcb5645ac2ba8,
      0x1481d45ae66cec153, 0x66b2fb872af3bf04, 0x5f2e3a21915e08, 0x1dca94e3990085)
    case 6 => Cut(7, 20, 46, 0x56bc75e2d631, 0x400000000000, 0xb9a74a0637ce2ee1, 0x6d953e2bd7173692,
      0x105f7f222fc682bef, 0x108954e2da99a559, 0x5efdaf3d23117e, 0x5ff065b34a903)
    case 7 => Cut(7, 21, 48, 0x1b1ae4d6e2ef5, 0x1000000000000, 0xe8111c87c5c1ba99, 0xc8fa8db6ccdd0437,
      0x23bced5fac4cfd96b, 0x1f3920c7d259c3d6a, 0x1032cd530ad9a4b, 0xe26edfd895d867)
    case 8 => Cut(7, 22, 51, 0x878678326eac9, 0x8000000000000, 0x910ab1d4db9914a0, 0x1d9c9892400a22a2,
      0x8e0c8c93859ceacdf, 0x8c3e3abd2e6ed3b45, 0x283d8564eaf097f, 0x27ba8d8f8a91906)
    case 9 => Cut(7, 23, 53, 0x2a5a058fc295ed, 0x20000000000000, 0xb54d5e4a127f59c8, 0x2503beb6d00cab4b,
      0x228ccbf643227d805, 0x1b53849ce66a2119d, 0xc3bfea41450062, 0x9ad27793274e05)
    case 10 => Cut(7, 24, 55, 0xd3c21bcecceda1, 0x80000000000000, 0xe2a0b5dc971f303a, 0x2e44ae64840fd61d,
      0x179e96eab3c4d6a93, 0x15dc6a171ebb4dae4, 0xa746a908029978, 0x9ad27793274e05)
    case 11 => Cut(7, 25, 58, 0x422ca8b0a00a425, 0x400000000000000, 0x8da471a9de737e24, 0x5ceaecfed289e5d2,
      0x10fc3bdf5a5228c3d, 0x6a25b0b5972ade56, 0x4b2eb0d7dc4500, 0x1d5d78cd255aeb)
    case 12 => Cut(7, 26, 60, 0x14adf4b7320334b9, 0x1000000000000000, 0xb10d8e1456105dad, 0x7425a83e872c5f47,
      0x434d2f123e8fe6384, 0x3fe7897f2c7f77aab, 0x1745f6e894f9597, 0x16193c253588457)
    case 13 => Cut(7, 27, 62, 0x6765c793fa10079d, 0x4000000000000000, 0xdd50f1996b947518, 0xd12f124e28f77719,
      0x1092128cbb15f14372, 0x108733ae17a8efe1ad, 0x729aba65d9b5213, 0x724f8bb501d8dc3)
  }

  function From224(i: nat): (r: Row)
    requires i < 14
    ensures IsRow(224 + i, r)
  {
    hide IsRow;
    match i
    case 0 => Cut(8, 0, 0, 0x1, 0x1, 0x8a5296ffe33cc92f, 0x82bd6b70d99aaa6f,
      0x1a8350e12b564ed250, 0x1a78720287e94d708b, 0x729aba65d9b5213, 0x726bbd3752cb761)
    case 1 => Cut(8, 1, 2, 0x5, 0x4, 0xace73cbfdc0bfb7b, 0x636cc64d1001550b,
      0xaaa252b5c87ee4367, 0xa94676e15adeb7fdd, 0x399f984458f37c1, 0x392a1f5007ab504)
    case 2 => Cut(8, 2, 4, 0x19, 0x10, 0xd8210befd30efa5a, 0x3c47f7e05401aa4e,
      0x26340a6e70f9e5819, 0x20c49b1cba79349f1, 0x10206ba5470b835, 0xdd50edfb0a2a84)
    case 3 => Cut(8, 3, 7, 0x7d, 0x80, 0x8714a775e3e95c78, 0x65acfaec34810a71,
      0x1c4b75e6328167a9d, 0xd1b713eb0fd483fa, 0x77709c9ee1a78b, 0x37543b7ec28aa1)
    case 4 => Cut(8, 4, 9, 0x271, 0x200, 0xa8d9d1535ce3b396, 0x7f1839a741a14d0d,
      0x1d407d0548ae96c7b, 0x172d47f57b468a36d, 0x9a59ad04ee21cd, 0x7a4b7c74de9358)
    case 5 => Cut(8, 5, 11, 0xc35, 0x800, 0xd31045a8341ca07c, 0x1ede48111209a050,
      0x20ac1a666b74afe8e, 0x172d47f57b468a36d, 0xd77f6b3f5d6b79, 0x98de5b9216382e)
    case 6 => Cut(8, 6, 14, 0x3d09, 0x4000, 0x83ea2b892091e44d, 0x934aed0aab460432,
      0x10ddf85624a788a46, 0x42fa3139aea3ed2b, 0x45881ebb2927b1, 0x1141a5a2b4e2ff)
    case 7 => Cut(8, 7, 16, 0x1312d, 0x10000, 0xa4e4b66b68b65d60, 0xf81da84d5617853f,
      0x73823d4c266f2b0f9, 0x6603dd073c4f8a8c1, 0x253350c9375a333, 0x20dacedd84c7b82)
    case 8 => Cut(8, 8, 18, 0x5f5e1, 0x40000, 0xce1de40642e3f4b9, 0x36251260ab9d668e,
      0x19ccec503682f583d, 0x176d43dcfb0a5e7d7, 0xa62f4ad3a7b2b9, 0x96e546d32951b6)
    case 9 => Cut(8, 9, 21, 0x1dcd65, 0x200000, 0x80d2ae83e9ce78f3, 0xc1d72b7c6b426019,
      0x61912d19c33fed26d, 0x564c24cb95a81b55f, 0x188c711369e7c57, 0x15b68bd8194f768)
    case 10 => Cut(8, 10, 23, 0x9502f9, 0x800000, 0xa1075a24e4421730, 0xb24cf65b8612f81f,
      0x1bd1b376653da8325, 0x11426dc251219f113, 0x8bfd7328ca5ad1, 0x56da2f60653dda)
    case 11 => Cut(8, 11, 25, 0x2e90edd, 0x2000000, 0xc94930ae1d529cfc, 0xdee033f26797b627,
      0x311939414162a139f, 0x2284db84a2433e226, 0x134d6bbdd7b9780, 0xd9217670fd1aa1)
    case 12 => Cut(8, 12, 27, 0xe8d4a51, 0x8000000, 0xfb9b7cd9a4a7443c, 0x169840ef017da3b1,
      0x1f4d951766408fc3a, 0x11cba429db2211765, 0xf620a35b3c489f, 0x8bebc7799e34c1)
    case 13 => Cut(8, 13, 30, 0x48c27395, 0x40000000, 0x9d412e0806e88aa5, 0x8e1f289560ee864e,
      0x169936c6a73575479, 0x8d55628de0f0ea62, 0x6f0dbc77d1ce21, 0x2b68acc4679569)
  }

  function From238(i: nat): (r: Row)
    requires i < 14
    ensures IsRow(238 + i, r)
  {
    hide IsRow;
    match i
    case 0 => Cut(8, 14, 32, 0x16bcc41e9, 0x100000000, 0xc491798a08a2ad4e, 0xf1a6f2bab92a27e2,
      0x311939414162a139f, 0x24869a7b0c14060e1, 0x12d99b3764ab1f3, 0xe05e7ed82e002e)
    case 1 => Cut(8, 15, 34, 0x71afd498d, 0x400000000, 0xf5b5d7ec8acb58a2, 0xae10af696774b1db,
      0x11d71ea701cc6854f, 0xe9c3dcad1a19c05a, 0x88fc63d53c3c61, 0x702f3f6c170017)
    case 2 => Cut(8, 16, 37, 0x2386f26fc1, 0x2000000000, 0x9991a6f3d6bf1765, 0xacca6da1e0a8ef29,
      0x160deb5ad89772dc3, 0xa657116fad6917e6, 0x69d6ef6d11d4d2, 0x31e4569bc230f9)
    case 3 => Cut(8, 17, 39, 0xb1a2bc2ec5, 0x8000000000, 0xbff610b0cc6edd3f, 0x17fd090a58d32af3,
      0x2a9832196daf52ac4, 0x2a5796aa0d1a0f7f9, 0xff83f3405867bd, 0xfe0062b2f50b05)
    case 4 => Cut(8, 18, 41, 0x3782dace9d9, 0x20000000000, 0xeff394dcff8a948e, 0xddfc4b4cef07f5b0,
      0x223a1ef0c4e5d0d7d, 0x21f9838164508dab2, 0x100a69faa62ed47, 0xfec22af9a6b961)
    case 5 => Cut(8, 19, 44, 0x1158e460913d, 0x100000000000, 0x95f83d0a1fb69cd9, 0x4abdaf101564f98e,
      0x291f776a65fe6e725, 0x1b142b07c337f010a, 0xc0b98655e1b872, 0x7ee7f850a44fb7)
    case 6 => Cut(8, 20, 46, 0x56bc75e2d631, 0x400000000000, 0xbb764c4ca7a4440f, 0x9d6d1ad41abe37f1,
      0x1112959b29c5a479f, 0x29b5fbaa016b0563, 0x6403b77f712976, 0xf459a92d9b9bf)
    case 7 => Cut(8, 21, 48, 0x1b1ae4d6e2ef5, 0x1000000000000, 0xea53df5fd18d5513, 0x84c86189216dc5ed,
      0x1007a283b6895df11, 0x215e62ee6788d11c, 0x7561d815e096f4, 0xf459a92d9b9bf)
    case 8 => Cut(8, 22, 51, 0x878678326eac9, 0x8000000000000, 0x92746b9be2f8552c, 0x32fd3cf5b4e49bb4,
      0x335429f9088a3dc07, 0x27c7d72316f2f6afa, 0xeaeabd33d5ca6f, 0xb6107fc1f96733)
    case 9 => Cut(8, 23, 53, 0x2a5a058fc295ed, 0x20000000000000, 0xb7118682dbb66a77, 0x3fbc8c33221dc2a1,
      0x2daea91ccdde4dd3e, 0x22225646dc4706c31, 0x10557dbecc3fc0d, 0xc3470f1e708002)
    case 10 => Cut(8, 24, 55, 0xd3c21bcecceda1, 0x80000000000000, 0xe4d5e82392a40515, 0xfabaf3feaa5334a,
      0x14af41754df6f03b3, 0xfdc79082387b46e5, 0x93eaf6fd195a11, 0x716ce4efaaa1fc)
    case 11 => Cut(8, 25, 58, 0x422ca8b0a00a425, 0x400000000000000, 0x8f05b1163ba6832d, 0x29cb4d87f2a7400e,
      0x146807e86051bcd34, 0x5a87513f35ed604b, 0x5b348485440913, 0x1949ccd328a0b4)
    case 12 => Cut(8, 26, 60, 0x14adf4b7320334b9, 0x1000000000000000, 0xb2c71d5bca9023f8, 0x743e20e9ef511012,
      0x111fb5be114105179, 0x121b103fd795e00f, 0x5faaefd9513b5a, 0x6527334ca282d)
    case 13 => Cut(8, 27, 62, 0x6765c793fa10079d, 0x4000000000000000, 0xdf78e4b2bd342cf6, 0x914da9246b255416,
      0x125cab5aaee8a6aab, 0x486c40ff5e57803c, 0x803b28dd5be5bd, 0x1f9c4007f2c8e1)
  }

  function From252(i: nat): (r: Row)
    requires i < 14
    ensures IsRow(252 + i, r)
  {
    hide IsRow;
    match i
    case 0 => Cut(9, 0, 0, 0x1, 0x1, 0x8bab8eefb6409c1a, 0x1ad089b6c2f7548e,
      0x6779e54a93bec3875, 0x5b8dbdaa93387ab9c, 0x1c3a43d914583ce, 0x18f9a863d44b48b)
    case 1 => Cut(9, 1, 2, 0x5, 0x4, 0xae9672aba3d0c320, 0xa184ac2473b529b1,
      0x2300909bb7c74b44f, 0x165082b76d757353a, 0xbef7a2625297d8, 0x79beb020a12361)
    case 2 => Cut(9, 2, 4, 0x19, 0x10, 0xda3c0f568cc4f3e8, 0xc9e5d72d90a2741e,
      0x2300909bb7c74b44f, 0x18da1f18491f6b50b, 0xeeb58afae73dce, 0xa97c98b935c957)
    case 3 => Cut(9, 3, 7, 0x7d, 0x80, 0x8865899617fb1871, 0x7e2fa67c7a658892,
      0x103d826be43fccba0, 0xeb3ad94da778b5c7, 0x4538f241b17477, 0x3eaa480ab2b50c)
    case 4 => Cut(9, 4, 9, 0x271, 0x200, 0xaa7eebfb9df9de8d, 0xddbb901b98feeab7,
      0x28afb174ae10d2ec7, 0x1bb1af84c4442f247, 0xd8c6be90c24b3d, 0x938dcc4f10d6c6)
    case 5 => Cut(9, 5, 11, 0xc35, 0x800, 0xd51ea6fa85785631, 0x552a74227f3ea565,
      0x147213f879253e225, 0xb13dfceb4e812db6, 0x882aea90776d78, 0x49c6e627886b63)
    case 6 => Cut(9, 6, 14, 0x3d09, 0x4000, 0x8533285c936b35de, 0xd53a88958f87275f,
      0x5cb5cf40f2ae70151, 0x589efe75a74096db0, 0x181e7dc17b9069e, 0x170e27ec5aa18ef)
    case 7 => Cut(9, 7, 16, 0x1312d, 0x10000, 0xa67ff273b8460356, 0x8a892abaf368f137,
      0x105b432d2db764e84, 0x8cc5f4e4a5f437f, 0x551ad29a4aa46b, 0x2dc75c29c2665)
    case 8 => Cut(9, 8, 18, 0x5f5e1, 0x40000, 0xd01fef10a657842c, 0x2d2b7569b0432d85,
      0x173aa19efc6453005, 0x10e80922125d59203, 0x971448dff7bc87, 0x6df51a74207d84)
    case 9 => Cut(9, 9, 21, 0x1dcd65, 0x200000, 0x8213f56a67f6b29b, 0x9c3b29620e29fc73,
      0x237d573adc4735207, 0x21d0124424bab2406, 0x904354f8902cb6, 0x89726111289ce5)
    case 10 => Cut(9, 10, 23, 0x9502f9, 0x800000, 0xa298f2c501f45f42, 0x8349f3ba91b47b8f,
      0x377121326734b91a4, 0x2fac5a90be87e086f, 0x119b5b609b8c99b, 0xf23c66d7e0f685)
    case 11 => Cut(9, 11, 25, 0x2e90edd, 0x2000000, 0xcb3f2f7642717713, 0x241c70a936219a73,
      0x6401f91c157776331, 0x60e67675053252c4f, 0x27b31fc8114469d, 0x2677554e8285d12)
    case 12 => Cut(9, 12, 27, 0xe8d4a51, 0x8000000, 0xfe0efb53d30dd4d7, 0xed238cd383aa0110,
      0x1c14b8b7fb65408ef, 0xfa6ae1bba50b2d67, 0xdef19fd143c8ab, 0x7c4259d4a838f4)
    case 13 => Cut(9, 13, 30, 0x48c27395, 0x40000000, 0x9ec95d1463e8a506, 0xf4363804324a40aa,
      0x1355a4273d740fe11, 0xbf7b810372d55cbd, 0x5ff084ae0cdd37, 0x3b626b9bc569fa)
  }

  function From266(i: nat): (r: Row)
    requires i < 14
    ensures IsRow(266 + i, r)
  {
    hide IsRow;
    match i
    case 0 => Cut(9, 14, 32, 0x16bcc41e9, 0x100000000, 0xc67bb4597ce2ce48, 0xb143c6053edcd0d5,
      0x421ab6e47cd8b5753, 0x32a3005eb215758df, 0x19a04d6e3e3cab9, 0x13a145235d6ed82)
    case 1 => Cut(9, 15, 34, 0x71afd498d, 0x400000000, 0xf81aa16fdc1b81da, 0xdd94b7868e94050a,
      0x2491afa188c160181, 0x1c22a17a52a82aebc, 0x11b877fff67a0bd, 0xda23cd87ca104b)
    case 2 => Cut(9, 16, 37, 0x2386f26fc1, 0x2000000000, 0x9b10a4e5e9913128, 0xca7cf2b4191c8326,
      0x1a6f5a111c0a3dae1, 0x13227b855fafa6aae, 0x80191c2883c693, 0x5cb8fa25fda409)
    case 3 => Cut(9, 17, 39, 0xb1a2bc2ec5, 0x8000000000, 0xc1d4ce1f63f57d72, 0xfd1c2f611f63a3f0,
      0x2d91d5967bb9e458f, 0x21891ea6e4707a45e, 0x114069be221c543, 0xcb22054d3e5957)
    case 4 => Cut(9, 18, 41, 0x3782dace9d9, 0x20000000000, 0xf24a01a73cf2dccf, 0xbc633b39673c8cec,
      0x2944f40b6c4bade86, 0x1d3c3d1bd50243d55, 0x13878e72c937b39, 0xdd5b2af2773452)
    case 5 => Cut(9, 19, 44, 0x1158e460913d, 0x100000000000, 0x976e41088617ca01, 0xd5be0503e085d813,
      0x101970798872c0a7b, 0x2111fb1dc2c9312e, 0x4c2f82e813ec02, 0x9c7ec9f8fa9a1)
    case 6 => Cut(9, 20, 46, 0x56bc75e2d631, 0x400000000000, 0xbd49d14aa79dbc82, 0x4b2d8644d8a74e18,
      0x10ed16c0ad5161e27, 0x1a74c8e49bd42758, 0x641f59f1e0bbd3, 0x9c7ec9f8fa9a1)
    case 7 => Cut(9, 21, 48, 0x1b1ae4d6e2ef5, 0x1000000000000, 0xec9c459d51852ba2, 0xddf8e7d60ed1219e,
      0x449809eed2c4d6dd2, 0x3a4390a5e0ccdf5bf, 0x1fb3043aaccc931, 0x1aeced2e8a25faf)
    case 8 => Cut(9, 22, 51, 0x878678326eac9, 0x8000000000000, 0x93e1ab8252f33b45, 0xcabb90e5c942b503,
      0x18365a7398bc4c60b, 0x111b8ab02f2391a41, 0x6fe46f7411576a, 0x4f0f2a7158b05b)
    case 9 => Cut(9, 23, 53, 0x2a5a058fc295ed, 0x20000000000000, 0xb8da1662e7b00a17, 0x3d6a751f3b936243,
      0x115e896052ae121f1, 0xdafa2268c1c74834, 0x6455f618695517, 0x4f0f2a7158b05b)
    case 10 => Cut(9, 24, 55, 0xd3c21bcecceda1, 0x80000000000000, 0xe7109bfba19c0c9d, 0xcc512670a783ad4,
      0x181b8e2d241e7f62b, 0xa365379aec670e37, 0xae136d9ffddc43, 0x49bd778794872c)
    case 11 => Cut(9, 25, 58, 0x422ca8b0a00a425, 0x400000000000000, 0x906a617d450187e2, 0x27fb2b80668b24c5,
      0x1d7f9204321209ff3, 0x146ca6f35d8ce1c6e, 0x85202184bbc29d, 0x5c2cd56979a8f7)
    case 12 => Cut(9, 26, 60, 0x14adf4b7320334b9, 0x1000000000000000, 0xb484f9dc9641e9da, 0xb1f9f660802dedf6,
      0x1225d621a90a5070a, 0x65ae0912e1db8aab, 0x66603e4425401f, 0x23d997adec4e12)
    case 13 => Cut(9, 27, 62, 0x6765c793fa10079d, 0x4000000000000000, 0xe1a63853bbd26451, 0x5e7873f8a0396973,
      0x113b0a8fc7bb76e13, 0x28ac03a127249dde, 0x7980a2de26fb8a, 0x11eccbd6f62709)
  }

  function From280(i: nat): (r: Row)
    requires i < 14
    ensures IsRow(280 + i, r)
  {
    hide IsRow;
    match i
    case 0 => Cut(10, 0, 0, 0x1, 0x1, 0x8d07e33455637eb2, 0xdb0b487b6423e1e8,
      0x1036bdabc05a8c887, 0x41133901d83a9630, 0x477532d51ad374, 0x11eccbd6f62709)
    case 1 => Cut(10, 1, 2, 0x5, 0x4, 0xb049dc016abc5e5f, 0x91ce1a9a3d2cda62,
      0x16c11a1ec2ffaa8f6, 0x1382f42f9c87280db, 0x7d5a949d5c2ce7, 0x6b7d47e815780a)
    case 2 => Cut(10, 2, 4, 0x19, 0x10, 0xdc5c5301c56b75f7, 0x7641a140cc7810fb,
      0x123144c7aadbb6a53, 0x7cdfb463e9c766be, 0x7d4735b340de30, 0x35bea3f40abc05)
    case 3 => Cut(10, 3, 7, 0x7d, 0x80, 0x89b9b3e11b6329ba, 0xa9e904c87fcb0a9d,
      0x123144c7aadbb6a53, 0xc7cc53d30fa57130, 0x4e4c8190088ade, 0x35bea3f40abc05)
    case 4 => Cut(10, 4, 9, 0x271, 0x200, 0xac2820d9623bf429, 0x546345fa9fbdcd44,
      0x1b41bd7e92b53ac6e, 0xb58abbb189a10c29, 0x92a388b019bd79, 0x3d0ad58a0df750)
    case 5 => Cut(10, 5, 11, 0xc35, 0x800, 0xd732290fbacaf133, 0xa97c177947ad4095,
      0x181320577a496592d, 0xb58abbb189a10c29, 0xa1e63e129d3b4d, 0x4c4d8aec917524)
    case 6 => Cut(10, 6, 14, 0x3d09, 0x4000, 0x867f59a9d4bed6c0, 0x49ed8eabcccc485d,
      0x1d7143f64993c84f4, 0x1a114db63d63f4ea3, 0x7bbf789c5480bb, 0x6d903322052994)
    case 7 => Cut(10, 7, 16, 0x1312d, 0x10000, 0xa81f301449ee8c70, 0x5c68f256bfff5a74,
      0x1cc4791cad8a37a17, 0x1a114db63d63f4ea3, 0x97238564d5cb20, 0x88f43fea8673f9)
    case 8 => Cut(10, 8, 18, 0x5f5e1, 0x40000, 0xd226fc195c6a2f8c, 0x73832eec6fff3111,
      0x1cc4791cad8a37a17, 0xf19bf8c0e67859b1, 0xbcec66be0b3de8, 0x632b5e91510131)
    case 9 => Cut(10, 9, 21, 0x1dcd65, 0x200000, 0x83585d8fd9c25db7, 0xc831fd53c5ff7eab,
      0x15ddf5b431d11cd70, 0x6e683687bb91aca7, 0x59c1082cba3cb7, 0x1c52b80a0cc9fa)
    case 10 => Cut(10, 10, 23, 0x9502f9, 0x800000, 0xa42e74f3d032f525, 0xba3e7ca8b77f5e55,
      0x364ef911aa21ac5ba, 0x2c2e7c817d75cea9f, 0x116a3947ca13c59, 0xe2ae6263c0eb7f)
    case 11 => Cut(10, 11, 25, 0x2e90edd, 0x2000000, 0xcd3a1230c43fb26f, 0x28ce1bd2e55f35eb,
      0x1440f9205957bb636, 0x78bb53d38b674f8b, 0x81e4fd3e30ca21, 0x3064b292c810af)
    case 12 => Cut(10, 12, 28, 0xe8d4a51, 0x10000000, 0x80444b5e7aa7cf85, 0x7980d163cf5b81b3,
      0x105bf520db0985d59, 0xf40f6fb9eb0e35e, 0x4192be742550fe, 0x3d2469e89d9fb)
    case 13 => Cut(10, 13, 30, 0x48c27395, 0x40000000, 0xa0555e361951c366, 0xd7e105bcc332621f,
      0x104c6271da10e421b, 0x6b4356595e9b4531, 0x51a9671aafb994, 0x2196ed6675a929)
  }

  function From294(i: nat): (r: Row)
    requires i < 14
    ensures IsRow(294 + i, r)
  {
    hide IsRow;
    match i
    case 0 => Cut(10, 14, 32, 0x16bcc41e9, 0x100000000, 0xc86ab5c39fa63440, 0x8dd9472bf3fefaa7,
      0x104c6271da10e421b, 0x21a7d6db2b795d55, 0x6613c0e15ba7f9, 0xd2c939fc9bac4)
    case 1 => Cut(10, 15, 34, 0x71afd498d, 0x400000000, 0xfa856334878fc150, 0xb14f98f6f0feb951,
      0x1064923ccfa062cb8, 0x6bb2af8a24b7911, 0x80560b4cf01fa9, 0x34b24e7f26eb1)
    case 2 => Cut(10, 16, 37, 0x2386f26fc1, 0x2000000000, 0x9c935e00d4b9d8d2, 0x6ed1bf9a569f33d3,
      0x45d2375257d773c27, 0x3887b08df01a4f1d4, 0x155a2587ae125eb, 0x11499d2170cf36d)
    case 3 => Cut(10, 17, 39, 0xb1a2bc2ec5, 0x8000000000, 0xc3b8358109e84f07, 0xa862f80ec4700c8,
      0x1a950d88cf7a494a6, 0x19452e600e638d5ff, 0xa2954ff9927e3b, 0x9a8f0aa47b8656)
    case 4 => Cut(10, 18, 41, 0x3782dace9d9, 0x20000000000, 0xf4a642e14c6262c8, 0xcd27bb612758c0fa,
      0x11c9408b2469330e7, 0xa1bac266c27d2266, 0x87faf55016107d, 0x4d4785523dc32b)
    case 5 => Cut(10, 19, 44, 0x1158e460913d, 0x100000000000, 0x98e7e9cccfbd7dbd, 0x8038d51cb897789c,
      0x11dd1cc4aa1f35b11, 0x503e7f67338e7c1e, 0x555bbf5222c7c7, 0x17f6e6a9a8ce41)
    case 6 => Cut(10, 20, 46, 0x56bc75e2d631, 0x400000000000, 0xbf21e44003acdd2c, 0xe0470a63e6bd56c3,
      0x11bd56023a9597e01, 0xc99a74957d3124d3, 0x69f4e326817ec7, 0x4b4276d2448204)
    case 7 => Cut(10, 21, 48, 0x1b1ae4d6e2ef5, 0x1000000000000, 0xeeea5d5004981478, 0x1858ccfce06cac74,
      0x133b5485853280d22, 0xc99a74957d3124d3, 0x8f961e8fa3bfc9, 0x5e131486d5a285)
    case 8 => Cut(10, 22, 51, 0x878678326eac9, 0x8000000000000, 0x95527a5202df0ccb, 0xf37801e0c43ebc8,
      0xd3aeb50dbcfc989b2, 0xc59f94155b80e140d, 0x3dbc713e0801f2b, 0x39a2c65d9c802ef)
    case 9 => Cut(10, 23, 53, 0x2a5a058fc295ed, 0x20000000000000, 0xbaa718e68396cffd, 0xd30560258f54e6ba,
      0xb497de6b4b93732ac, 0xa688bd72ea17bbd07, 0x41d61c1e7383b67, 0x3cb60685ed2181c)
    case 10 => Cut(10, 24, 55, 0xd3c21bcecceda1, 0x80000000000000, 0xe950df20247c83fd, 0x47c6b82ef32a2069,
      0x37cd2771313117ba3, 0x375dcb00dc73520b2, 0x196dacd2880cc9d, 0x193aedaa702e8c3)
    case 11 => Cut(10, 25, 58, 0x422ca8b0a00a425, 0x400000000000000, 0x91d28b7416cdd27e, 0x4cdc331d57fa5441,
      0x17470e579ae855fed, 0x15899c9647f13f429, 0x6a1320bc2d4c73, 0x622542787292d2)
    case 12 => Cut(10, 26, 60, 0x14adf4b7320334b9, 0x1000000000000000, 0xb6472e511c81471d, 0xe0133fe4adf8e952,
      0x6f2af2720da469c55, 0x618c9a30f47da11ee, 0x2793b8b1a1ee5b3, 0x22ba8aa1deb9ac5)
    case 13 => Cut(10, 27, 62, 0x6765c793fa10079d, 0x4000000000000000, 0xe3d8f9e563a198e5, 0x58180fddd97723a6,
      0xd62a1656a5cb27f39, 0xd0b78ca302220ae43, 0x5f4e6b30426c60d, 0x5ce1d42860d2096)
  }

  function From308(i: nat): (r: Row)
    requires i < 1
    ensures IsRow(308 + i, r)
  {
    hide IsRow;
    match i
    case 0 => Cut(11, 0, 0, 0x1, 0x1, 0x8e679c2f5e44ff8f, 0x570f09eaa7ea7648,
      0x10a4d2e4698d4469b, 0xafa4c9e2cfe43e6, 0x4a114b988acdef, 0x30da3f38fa43b)
  }
}
