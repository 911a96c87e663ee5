/**
 The fixed scene of GraphicsClass::Render: what is drawn, and the world
 matrices of the objects that are only scaled and translated (the floor, the
 rocket and the 200 trees). The other objects are rotated by the orbit angle;
 their matrices are not modelled.
 */
module Scene {
  import opened Transform

  /** Something Render draws; a tree instance carries its row in the placement table. */
  datatype Renderable = Floor | Rocket | Tree(index: nat) | Satellite | Earth | Saturn | SaturnRing | Sun

  /** The world matrix handed to a draw: a scale/translate matrix, or one with a rotation part. */
  datatype World = Placed(m: Affine) | Rotating

  /** The number of tree instances. */
  const TreeCount: nat := 200

  /** The x offset of each tree instance. */
  const TreePosX: seq<int> := [
     -40, -152, -31, 190, -165, 164, 277, -197, -118, -150, 4, 35, -108, 298, -48, -30, -102, -273, 92, -237,
     -213, -78, -175, -157, 223, -150, -212, 98, -45, -76, 74, 24, 44, -171, 69, -56, -296, 249, 235, 280,
     264, 32, 240, 101, 177, -269, 143, -102, 106, -106, 81, 60, -157, 227, 122, -298, 288, -287, -14, -124,
     56, -264, -296, -3, 196, 142, 203, -248, -218, -5, 152, -297, -210, -288, 219, 201, 213, -12, -39, -94,
     282, 108, 181, -254, 18, 288, 243, 17, 20, -62, 52, -26, -248, -177, 223, 165, 288, -40, 131, 270,
     -182, -126, 276, -211, 195, 10, -27, 236, -178, -262, -224, -83, 123, -70, -295, 106, -286, 220, 33, 13,
     200, -212, -287, 83, 111, -202, -34, -212, 207, 236, 44, 156, -120, -78, 106, -193, -264, -245, 148, 38,
     -99, 194, -148, 222, -121, -130, 22, 96, -179, 74, -198, 114, -158, 131, -46, 146, -47, 185, -68, 297,
     -102, -47, -223, 280, 195, 179, -37, 253, 77, -259, 107, 255, -268, -261, 107, 104, -126, -267, 195, 13,
     -255, -151, 139, -168, 123, -49, 180, -171, 257, 14, -100, 269, 192, -177, -154, 221, -52, 176, 68, -153
  ]

  /** The z offset of each tree instance. */
  const TreePosZ: seq<int> := [
     -63, 28, 67, 81, -220, 10, 109, 262, -187, -172, -240, -179, 279, 70, -51, -191, 224, -62, -210, -83,
     213, 144, 77, 299, -285, -80, 153, -120, 145, -29, 122, 12, 134, -102, 233, 59, 149, -220, -245, 162,
     116, -168, 120, -198, 137, 101, -238, 189, -283, -67, 214, -142, -237, 1, 201, 78, -134, 215, 60, -89,
     -222, 0, -150, 135, -297, -186, -47, -24, -143, -77, -286, 227, 7, -197, 187, 266, -182, -143, -111, -99,
     63, -74, -3, -90, -8, 274, 57, -110, 283, 0, -173, 299, -83, 7, 259, -66, 202, 228, 103, 241,
     125, -179, -66, -247, -294, -197, -154, 284, -188, 131, 50, -221, 133, 74, 79, 220, 206, 95, 192, 250,
     78, 284, 217, -8, -225, -98, -98, 264, -208, 24, 192, -141, -113, 172, 238, 44, -283, -120, -27, 195,
     -164, 201, 126, 110, -278, -275, 271, -260, 52, -236, 211, 236, -254, -189, 87, 166, -48, -131, 56, -251,
     32, 253, 0, 113, 278, 274, -119, -225, 202, 100, 140, 202, 39, -112, -146, 261, -43, -23, 30, -126,
     -250, -111, 104, -16, 214, -21, 248, -74, -171, -271, 111, -208, 42, -79, 78, -121, -92, -156, 161, 269
  ]

  lemma TreeTableShape()
    ensures |TreePosX| == TreeCount && |TreePosZ| == TreeCount
  {
  }

  /** A twentieth-size scaling followed by a translation. */
  lemma ScaledThenMoved(tx: real, ty: real, tz: real)
    ensures Multiply(Scaling(0.05, 0.05, 0.05), Translation(tx, ty, tz)) == Affine(Vec3(0.05, 0.05, 0.05), Vec3(tx, ty, tz))
  {
  }

  /** The floor: scaled by (3, 1, 3), then moved down 200. */
  function FloorWorld(base: Affine): (r: Affine)
    ensures base == Identity ==> r == Affine(Vec3(3.0, 1.0, 3.0), Vec3(0.0, -200.0, 0.0))
  {
    Multiply(Multiply(base, Scaling(3.0, 1.0, 3.0)), Translation(0.0, -200.0, 0.0))
  }

  /** The rocket: scaled by 0.05, then lifted by a fifth of its height above -200. */
  function RocketWorld(base: Affine, rocketHeight: real): (r: Affine)
    ensures base == Identity ==> r == Affine(Vec3(0.05, 0.05, 0.05), Vec3(0.0, -200.0 + 0.2 * rocketHeight, 0.0))
  {
    var lift := -200.0 + rocketHeight * 0.2;
    IdentityFirst(base, Scaling(0.05, 0.05, 0.05));
    ScaledThenMoved(0.0, lift, 0.0);
    Multiply(Multiply(base, Scaling(0.05, 0.05, 0.05)), Translation(0.0, lift, 0.0))
  }

  /** A tree drawn at table entry (x, z): scaled by 0.05, moved to the grove at
      (-150, 0, 270), then to the entry at height -202. */
  function GroveWorld(base: Affine, x: real, z: real): (r: Affine)
    ensures base == Identity ==> r == Affine(Vec3(0.05, 0.05, 0.05), Vec3(x - 150.0, -202.0, z + 270.0))
  {
    IdentityFirst(base, Scaling(0.05, 0.05, 0.05));
    ScaledThenMoved(-150.0, 0.0, 270.0);
    TranslationAfter(Affine(Vec3(0.05, 0.05, 0.05), Vec3(-150.0, 0.0, 270.0)), x, -202.0, z);
    Multiply(Multiply(Multiply(base, Scaling(0.05, 0.05, 0.05)),
                      Translation(-150.0, 0.0, 270.0)),
             Translation(x, -202.0, z))
  }

  /** Tree instance i. Every instance is drawn at the same size and stands on
      the same ground level; only its place in the x-z plane depends on i. */
  function TreeWorld(base: Affine, i: nat): (r: Affine)
    requires i < TreeCount
    ensures base == Identity ==> r.scale == Vec3(0.05, 0.05, 0.05) && r.offset.y == -202.0
  {
    GroveWorld(base, TreePosX[i] as real, TreePosZ[i] as real)
  }

  /** With an identity base matrix the floor maps p to (3 p.x, p.y - 200, 3 p.z). */
  lemma FloorPlacement(base: Affine, p: Vec3)
    requires MovesNothing(base)
    ensures Apply(FloorWorld(base), p) == Vec3(3.0 * p.x, p.y - 200.0, 3.0 * p.z)
  {
    MultiplyAppliesLeftFirst(base, Scaling(3.0, 1.0, 3.0), p);
    MultiplyAppliesLeftFirst(Multiply(base, Scaling(3.0, 1.0, 3.0)), Translation(0.0, -200.0, 0.0), p);
  }

  /** With an identity base matrix the rocket maps p to 0.05 p + (0, -200 + 0.2 h, 0). */
  lemma RocketPlacement(base: Affine, rocketHeight: real, p: Vec3)
    requires MovesNothing(base)
    ensures Apply(RocketWorld(base, rocketHeight), p)
         == Vec3(0.05 * p.x, 0.05 * p.y - 200.0 + 0.2 * rocketHeight, 0.05 * p.z)
  {
    var s := Multiply(base, Scaling(0.05, 0.05, 0.05));
    MultiplyAppliesLeftFirst(base, Scaling(0.05, 0.05, 0.05), p);
    MultiplyAppliesLeftFirst(s, Translation(0.0, -200.0 + rocketHeight * 0.2, 0.0), p);
  }

  /** A greater rocket height draws every point of the rocket higher, for any base matrix
      whose y scale is positive. */
  lemma RocketRisesWithHeight(base: Affine, h1: real, h2: real, p: Vec3)
    requires 0.0 < base.scale.y
    requires h1 <= h2
    ensures Apply(RocketWorld(base, h1), p).y <= Apply(RocketWorld(base, h2), p).y
    ensures Apply(RocketWorld(base, h1), p).x == Apply(RocketWorld(base, h2), p).x
    ensures Apply(RocketWorld(base, h1), p).z == Apply(RocketWorld(base, h2), p).z
  {
    var s := Multiply(base, Scaling(0.05, 0.05, 0.05));
    MultiplyAppliesLeftFirst(s, Translation(0.0, -200.0 + h1 * 0.2, 0.0), p);
    MultiplyAppliesLeftFirst(s, Translation(0.0, -200.0 + h2 * 0.2, 0.0), p);
  }

  /** With an identity base matrix a tree at entry (x, z) maps p to
      0.05 p + (x - 150, -202, z + 270). */
  lemma GrovePlacement(base: Affine, x: real, z: real, p: Vec3)
    requires MovesNothing(base)
    ensures Apply(GroveWorld(base, x, z), p)
         == Vec3(0.05 * p.x + x - 150.0, 0.05 * p.y - 202.0, 0.05 * p.z + z + 270.0)
  {
    var s := Multiply(base, Scaling(0.05, 0.05, 0.05));
    var g := Multiply(s, Translation(-150.0, 0.0, 270.0));
    MultiplyAppliesLeftFirst(base, Scaling(0.05, 0.05, 0.05), p);
    MultiplyAppliesLeftFirst(s, Translation(-150.0, 0.0, 270.0), p);
    MultiplyAppliesLeftFirst(g, Translation(x, -202.0, z), p);
  }

  /** With an identity base matrix tree instance i maps p to
      0.05 p + (TreePosX[i] - 150, -202, TreePosZ[i] + 270). */
  lemma TreePlacement(base: Affine, i: nat, p: Vec3)
    requires MovesNothing(base)
    requires i < TreeCount
    ensures Apply(TreeWorld(base, i), p)
         == Vec3(0.05 * p.x + TreePosX[i] as real - 150.0,
                 0.05 * p.y - 202.0,
                 0.05 * p.z + TreePosZ[i] as real + 270.0)
  {
    GrovePlacement(base, TreePosX[i] as real, TreePosZ[i] as real, p);
  }
}
